/**
 * model/model_catalog.go: the catalog of canonical model names derived from the enabled routes.
 * Buckets collect names per semantic key, are merged per canonical name, and are indexed for look-up.
 */
module ModelCatalog {
  import opened Text
  import opened Sorting
  import opened ModelAlias
  import opened Wrappers
  import opened Routes
  import opened CatalogIndex
  import Alias = ProviderAlias

  type ReverseLookups = map<int, Alias.Lookup>

  // ---------------------------------------------------------------- text order

  function CompareTextStable(a: string, b: string): int {
    var al, bl := ToLower(TrimSpace(a)), ToLower(TrimSpace(b));
    if Less(al, bl) then -1
    else if Less(bl, al) then 1
    else if Less(TrimSpace(a), TrimSpace(b)) then -1
    else if Less(TrimSpace(b), TrimSpace(a)) then 1
    else 0
  }

  /** The folded names decide, then the names themselves; outer white space never counts. */
  predicate TextBefore(a: string, b: string) {
    var al, bl := ToLower(TrimSpace(a)), ToLower(TrimSpace(b));
    Less(al, bl) || (al == bl && Less(TrimSpace(a), TrimSpace(b)))
  }

  lemma CompareMeaning()
    ensures forall a, b :: CompareTextStable(a, b) < 0 <==> TextBefore(a, b)
  {
    LessIsTotal();
  }

  lemma TextBeforeFacts(a: string, b: string, c: string)
    ensures !TextBefore(a, a)
    ensures TextBefore(a, b) && TextBefore(b, c) ==> TextBefore(a, c)
    ensures TextBefore(a, c) ==> TextBefore(a, b) || TextBefore(b, c)
    ensures TrimSpace(a) == TrimSpace(b) || TextBefore(a, b) || TextBefore(b, a)
  {
    LessIsTotal();
  }

  lemma TextBeforeIsOrder()
    ensures StrictOrder(TextBefore)
  {
    forall a, b, c
      ensures !TextBefore(a, a)
      ensures TextBefore(a, b) && TextBefore(b, c) ==> TextBefore(a, c)
      ensures TextBefore(a, c) ==> TextBefore(a, b) || TextBefore(b, c)
    {
      TextBeforeFacts(a, b, c);
    }
  }

  datatype Candidate = Candidate(name: string, rank: int)

  predicate CandidateBefore(a: Candidate, b: Candidate) {
    if a.rank != b.rank then a.rank < b.rank else TextBefore(a.name, b.name)
  }

  lemma CandidateBeforeIsOrder()
    ensures StrictOrder(CandidateBefore)
  {
    TextBeforeIsOrder();
  }

  // ---------------------------------------------------------------- what a bucket keeps

  /** Names enter a bucket trimmed and not blank. */
  predicate IsName(n: string) {
    n != [] && Trimmed(n)
  }

  function NameKey(n: string): string {
    ToLower(n)
  }

  function CandidateKey(c: Candidate): string {
    ToLower(c.name)
  }

  /** `m` keeps, for every folded name among the items, the least item of that fold. */
  ghost predicate Keeps<T(!new)>(m: map<string, T>, items: set<T>, key: T -> string, before: (T, T) -> bool) {
    && (forall x :: x in items ==> key(x) in m)
    && (forall k :: k in m ==> m[k] in items && key(m[k]) == k)
    && (forall k, x :: k in m && x in items && key(x) == k ==> x == m[k] || before(m[k], x))
  }

  lemma KeepsAdd<T(!new)>(m: map<string, T>, items: set<T>, x: T, key: T -> string, before: (T, T) -> bool)
    requires StrictOrder(before) && Keeps(m, items, key, before)
    requires forall y :: y in items ==> x == y || before(x, y) || before(y, x)
    ensures Keeps(if key(x) !in m || before(x, m[key(x)]) then m[key(x) := x] else m, items + {x}, key, before)
  {
    var next := if key(x) !in m || before(x, m[key(x)]) then m[key(x) := x] else m;
    forall k, y | k in next && y in items + {x} && key(y) == k
      ensures y == next[k] || before(next[k], y)
    {
      if k == key(x) && key(x) in m && y in items {
        assert y == m[k] || before(m[k], y);
      }
    }
  }

  ghost predicate Names(names: set<string>) {
    forall n :: n in names ==> IsName(n)
  }

  ghost predicate CandidateNames(items: set<Candidate>) {
    forall c :: c in items ==> IsName(c.name)
  }

  lemma NamesComparable(a: string, b: string)
    requires IsName(a) && IsName(b)
    ensures a == b || TextBefore(a, b) || TextBefore(b, a)
  {
    TextBeforeFacts(a, b, a);
    TrimSpaceTrimmed(a);
    TrimSpaceTrimmed(b);
  }

  lemma ComparableToAll(name: string, names: set<string>)
    requires IsName(name) && Names(names)
    ensures forall y :: y in names ==> name == y || TextBefore(name, y) || TextBefore(y, name)
    ensures Names(names + {name})
  {
    hide IsName, TextBefore;
    forall y | y in names ensures name == y || TextBefore(name, y) || TextBefore(y, name) {
      NamesComparable(name, y);
    }
  }

  lemma CandidateComparableToAll(c: Candidate, items: set<Candidate>)
    requires IsName(c.name) && CandidateNames(items)
    ensures forall y :: y in items ==> c == y || CandidateBefore(c, y) || CandidateBefore(y, c)
    ensures CandidateNames(items + {c})
  {
    hide IsName, TextBefore;
    forall y | y in items ensures c == y || CandidateBefore(c, y) || CandidateBefore(y, c) {
      NamesComparable(c.name, y.name);
    }
  }

  class Bucket {
    var canonicalName: string
    var routeTargets: map<string, string>
    var aliases: map<string, string>
    var candidates: map<string, Candidate>
    ghost var targetNames: set<string>
    ghost var aliasNames: set<string>
    ghost var ranked: set<Candidate>

    ghost predicate Valid()
      reads this
    {
      && Names(targetNames) && Keeps(routeTargets, targetNames, NameKey, TextBefore)
      && Names(aliasNames) && Keeps(aliases, aliasNames, NameKey, TextBefore)
      && CandidateNames(ranked) && Keeps(candidates, ranked, CandidateKey, CandidateBefore)
    }

    constructor ()
      ensures Valid()
      ensures targetNames == {} && aliasNames == {} && ranked == {} && canonicalName == []
    {
      canonicalName, routeTargets, aliases, candidates := [], map[], map[], map[];
      targetNames, aliasNames, ranked := {}, {}, {};
    }

    method AddRouteTarget(value: string)
      requires Valid()
      modifies `routeTargets, `targetNames
      ensures Valid()
      ensures targetNames == old(targetNames) + (if TrimSpace(value) == [] then {} else {TrimSpace(value)})
    {
      hide TrimSpace, ToLower, CompareTextStable, TextBefore, Keeps, Trimmed, StrictOrder;
      var trimmed := TrimSpace(value);
      if trimmed == [] {
        return;
      }
      TrimSpaceTrimmed(value);
      CompareMeaning();
      TextBeforeIsOrder();
      ComparableToAll(trimmed, targetNames);
      KeepsAdd(routeTargets, targetNames, trimmed, NameKey, TextBefore);
      var lower := ToLower(trimmed);
      if lower !in routeTargets || CompareTextStable(trimmed, routeTargets[lower]) < 0 {
        routeTargets := routeTargets[lower := trimmed];
      }
      targetNames := targetNames + {trimmed};
    }

    method AddAlias(value: string)
      requires Valid()
      modifies `aliases, `aliasNames
      ensures Valid()
      ensures aliasNames == old(aliasNames) + (if TrimSpace(value) == [] then {} else {TrimSpace(value)})
    {
      hide TrimSpace, ToLower, CompareTextStable, TextBefore, Keeps, Trimmed, StrictOrder;
      var trimmed := TrimSpace(value);
      if trimmed == [] {
        return;
      }
      TrimSpaceTrimmed(value);
      CompareMeaning();
      TextBeforeIsOrder();
      ComparableToAll(trimmed, aliasNames);
      KeepsAdd(aliases, aliasNames, trimmed, NameKey, TextBefore);
      var lower := ToLower(trimmed);
      if lower !in aliases || CompareTextStable(trimmed, aliases[lower]) < 0 {
        aliases := aliases[lower := trimmed];
      }
      aliasNames := aliasNames + {trimmed};
    }

    method AddCandidate(value: string, rank: int)
      requires Valid()
      modifies `candidates, `ranked
      ensures Valid()
      ensures ranked == old(ranked) + (if TrimSpace(value) == [] then {} else {Candidate(TrimSpace(value), rank)})
    {
      hide TrimSpace, ToLower, CompareTextStable, TextBefore, Keeps, Trimmed, StrictOrder;
      var trimmed := TrimSpace(value);
      if trimmed == [] {
        return;
      }
      TrimSpaceTrimmed(value);
      CompareMeaning();
      CandidateBeforeIsOrder();
      var item := Candidate(trimmed, rank);
      CandidateComparableToAll(item, ranked);
      KeepsAdd(candidates, ranked, item, CandidateKey, CandidateBefore);
      var lower := ToLower(trimmed);
      if lower !in candidates || rank < candidates[lower].rank
         || (rank == candidates[lower].rank && CompareTextStable(trimmed, candidates[lower].name) < 0) {
        candidates := candidates[lower := item];
      }
      ranked := ranked + {item};
    }

    /** The least candidate by rank, then by text; without candidates the first alias, then the first target. */
    method ChooseCanonicalName() returns (name: string)
      requires Valid()
      ensures ranked != {} ==> exists rank :: IsLeast(ranked, Candidate(name, rank))
      ensures ranked == {} && aliasNames != {} ==> FirstName(aliasNames, name)
      ensures ranked == {} && aliasNames == {} ==>
                if targetNames == {} then name == [] else FirstName(targetNames, name)
    {
      hide IsName, NameKey, TextBefore, CandidateKey, CandidateBefore;
      if |candidates| == 0 {
        assert ranked == {} by {
          assert forall c :: c in ranked ==> CandidateKey(c) in candidates;
        }
        var names := SortedMapValues(aliases);
        FirstOfKept(aliases, aliasNames, names);
        if |names| > 0 {
          return names[0];
        }
        names := SortedMapValues(routeTargets);
        FirstOfKept(routeTargets, targetNames, names);
        if |names| > 0 {
          return names[0];
        }
        return [];
      }
      var first := FirstCandidate(candidates, ranked);
      name := TrimSpace(first.name);
    }
  }

  /** The first of the kept spellings is the first of all names. */
  lemma FirstOfKept(values: map<string, string>, names: set<string>, sorted: seq<string>)
    requires Names(names) && Keeps(values, names, NameKey, TextBefore)
    requires (forall k :: k in values ==> IsName(values[k]) && NameKey(values[k]) == k) ==> InTextOrder(sorted, values)
    ensures sorted == [] <==> names == {}
    ensures sorted != [] ==> FirstName(names, sorted[0])
  {
    hide IsName, NameKey, TextBefore;
    TextBeforeIsOrder();
    assert InTextOrder(sorted, values);
    forall m | m in names ensures sorted != [] && (sorted[0] == m || TextBefore(sorted[0], m)) {
      var v := values[NameKey(m)];
      assert v in values.Values && v in sorted;
      var i :| 0 <= i < |sorted| && sorted[i] == v;
      assert i == 0 || TextBefore(sorted[0], v);
    }
    if sorted != [] {
      assert sorted[0] in sorted;
      assert sorted[0] in values.Values;
    }
  }

  ghost predicate IsLeast(items: set<Candidate>, c: Candidate) {
    c in items && forall d :: d in items ==> d == c || CandidateBefore(c, d)
  }

  method FirstCandidate(candidates: map<string, Candidate>, ghost ranked: set<Candidate>) returns (first: Candidate)
    requires |candidates| > 0
    requires CandidateNames(ranked) && Keeps(candidates, ranked, CandidateKey, CandidateBefore)
    ensures IsLeast(ranked, first) && TrimSpace(first.name) == first.name
  {
    hide Keeps, CandidateNames, IsLeast, CandidateBefore, TrimSpace, StrictOrder;
    var keys := AnyOrder(candidates.Keys);
    var items: seq<Candidate> := [];
    for i := 0 to |keys|
      invariant |items| == i && forall j :: 0 <= j < i ==> items[j] == candidates[keys[j]]
    {
      assert keys[i] in keys;
      items := items + [candidates[keys[i]]];
    }
    CandidateBeforeIsOrder();
    var sorted := SortSlice(CandidateBefore, items);
    LeastOfSorted(candidates, ranked, keys, items, sorted);
    first := sorted[0];
  }

  lemma LeastOfSorted(m: map<string, Candidate>, ranked: set<Candidate>, keys: seq<string>,
                      items: seq<Candidate>, sorted: seq<Candidate>)
    requires |m| > 0 && CandidateNames(ranked) && Keeps(m, ranked, CandidateKey, CandidateBefore)
    requires forall k :: k in keys <==> k in m
    requires |items| == |keys| && forall j :: 0 <= j < |items| ==> keys[j] in m && items[j] == m[keys[j]]
    requires Sorted(CandidateBefore, sorted) && multiset(sorted) == multiset(items)
    ensures sorted != [] && IsLeast(ranked, sorted[0]) && TrimSpace(sorted[0].name) == sorted[0].name
  {
    SameElements(items, sorted);
    assert m.Keys != {};
    var some :| some in m.Keys;
    assert some in keys;
    var c := sorted[0];
    assert c in items;
    TrimSpaceTrimmed(c.name);
    forall d | d in ranked ensures d == c || CandidateBefore(c, d) {
      var k := CandidateKey(d);
      assert k in keys;
      var i :| 0 <= i < |keys| && keys[i] == k;
      assert items[i] in sorted;
      NotAfterFirst(sorted, m[k]);
      NamesComparable(c.name, m[k].name);
      CandidateBeforeIsOrder();
    }
  }

  lemma NotAfterFirst(sorted: seq<Candidate>, c: Candidate)
    requires Sorted(CandidateBefore, sorted) && c in sorted
    ensures c == sorted[0] || !CandidateBefore(c, sorted[0])
  {
    var j :| 0 <= j < |sorted| && sorted[j] == c;
  }

  /** `sortedMapValues`: the values of the map, blanks dropped, in text order. */
  method SortedMapValues(values: map<string, string>) returns (sorted: seq<string>)
    ensures Sorted(TextBefore, sorted)
    ensures (forall k :: k in values ==> IsName(values[k]) && NameKey(values[k]) == k) ==> InTextOrder(sorted, values)
  {
    var keys := AnyOrder(values.Keys);
    var items: seq<string> := [];
    for i := 0 to |keys|
      invariant |items| <= i
      invariant (forall k :: k in values ==> IsName(values[k])) ==>
                  |items| == i && forall j :: 0 <= j < i ==> items[j] == values[keys[j]]
    {
      assert keys[i] in keys;
      var trimmed := TrimSpace(values[keys[i]]);
      TrimSpaceTrimmed(values[keys[i]]);
      if trimmed == [] {
        continue;
      }
      items := items + [trimmed];
    }
    TextBeforeIsOrder();
    sorted := SortSlice(TextBefore, items);
    if forall k :: k in values ==> IsName(values[k]) && NameKey(values[k]) == k {
      ValuesInOrder(values, keys, items, sorted);
    }
  }

  /** The values of the map, each once, strictly increasing in text order. */
  ghost predicate InTextOrder(sorted: seq<string>, values: map<string, string>) {
    && StrictlySorted(TextBefore, sorted)
    && forall n :: n in sorted <==> n in values.Values
  }

  lemma ValuesInOrder(values: map<string, string>, keys: seq<string>, items: seq<string>, sorted: seq<string>)
    requires forall k :: k in values ==> IsName(values[k]) && NameKey(values[k]) == k
    requires NoDuplicates(keys) && forall k :: k in keys <==> k in values
    requires |items| == |keys| && forall j :: 0 <= j < |items| ==> keys[j] in values && items[j] == values[keys[j]]
    requires Sorted(TextBefore, sorted) && multiset(sorted) == multiset(items)
    ensures InTextOrder(sorted, values)
  {
    assert NoDuplicates(items) by {
      forall i, j | 0 <= i < j < |items| ensures items[i] != items[j] {
        assert NameKey(items[i]) == keys[i] && NameKey(items[j]) == keys[j];
      }
    }
    SameElements(items, sorted);
    TextBeforeIsOrder();
    forall x, y | x in sorted && y in sorted && x != y ensures TextBefore(x, y) || TextBefore(y, x) {
      NamesComparable(x, y);
    }
    SortedDistinct(TextBefore, sorted);
    forall n ensures n in items <==> n in values.Values {
      if n in values.Values {
        var k :| k in values && values[k] == n;
        assert k in keys;
        var j :| 0 <= j < |keys| && keys[j] == k;
        assert items[j] == n;
      }
    }
  }

  // ---------------------------------------------------------------- what a route puts into its bucket

  predicate Named(r: ModelRoute) {
    TrimSpace(r.modelName) != []
  }

  /** The route's name as the catalog sees it. */
  function RouteName(r: ModelRoute): string {
    TrimSpace(r.modelName)
  }

  /** Routes share a bucket when they normalize alike, or, without a normal form, fold alike. */
  function SemanticKey(r: ModelRoute): string {
    var normalized := NormalizeModelName(RouteName(r));
    if normalized != [] then normalized else ToLower(RouteName(r))
  }

  /** The alias source the provider declares for the route's name, if any. */
  function AliasSource(r: ModelRoute, reverse: ReverseLookups): Option<string> {
    if r.providerId in reverse then Alias.Resolve(reverse[r.providerId], RouteName(r)) else None
  }

  function Nonblank(name: string): set<string> {
    if name == [] then {} else {name}
  }

  function RouteAliases(r: ModelRoute, reverse: ReverseLookups): set<string> {
    var source := AliasSource(r, reverse);
    {RouteName(r)} + Nonblank(NormalizeModelName(RouteName(r)))
    + (if source.Some? then {source.value} + Nonblank(NormalizeModelName(source.value)) else {})
  }

  function RouteCandidates(r: ModelRoute, reverse: ReverseLookups): set<Candidate> {
    var source := AliasSource(r, reverse);
    var normalized := NormalizeModelName(RouteName(r));
    {Candidate(RouteName(r), 3)}
    + (if normalized == [] then {} else {Candidate(normalized, 2)})
    + (if source.Some? then {Candidate(source.value, 1)} else {})
  }

  lemma NormalizedIsTrimmed(name: string)
    ensures TrimSpace(NormalizeModelName(name)) == NormalizeModelName(name)
  {
    var trimmed := TrimSpace(ToLower(name));
    if trimmed != [] {
      var labelled := StripLabels(AfterLastSlash(TrimPrefix(trimmed, "bigmodel/")), 6);
      var untagged := labelled[..Index(labelled, ':')];
      LowerTrim(TrimSuffix(StripISODate(StripCompactDate(untagged)), "-latest"));
    }
  }

  /** One route's names, already normalized, go into the bucket with their ranks. */
  method AddNames(bucket: Bucket, name: string, normalized: string, source: Option<string>, sourceNormalized: string)
    requires bucket.Valid()
    requires TrimSpace(name) == name != [] && TrimSpace(normalized) == normalized
    requires source.Some? ==> TrimSpace(source.value) == source.value != []
    requires TrimSpace(sourceNormalized) == sourceNormalized
    modifies bucket
    ensures bucket.Valid()
    ensures bucket.targetNames == old(bucket.targetNames) + {name}
    ensures bucket.aliasNames == old(bucket.aliasNames) + {name} + Nonblank(normalized)
                                 + (if source.Some? then {source.value} + Nonblank(sourceNormalized) else {})
    ensures bucket.ranked == old(bucket.ranked) + {Candidate(name, 3)}
                             + (if normalized == [] then {} else {Candidate(normalized, 2)})
                             + (if source.Some? then {Candidate(source.value, 1)} else {})
  {
    hide Keeps, Names, CandidateNames;
    bucket.AddRouteTarget(name);
    bucket.AddAlias(name);
    bucket.AddCandidate(name, 3);
    if normalized != [] {
      bucket.AddAlias(normalized);
      bucket.AddCandidate(normalized, 2);
    }
    if source.Some? {
      bucket.AddAlias(source.value);
      bucket.AddCandidate(source.value, 1);
      if sourceNormalized != [] {
        bucket.AddAlias(sourceNormalized);
      }
    }
  }

  /** Everything one route contributes to its bucket. */
  method AddRoute(bucket: Bucket, route: ModelRoute, reverse: ReverseLookups)
    requires bucket.Valid() && Named(route)
    modifies bucket
    ensures bucket.Valid()
    ensures bucket.targetNames == old(bucket.targetNames) + {RouteName(route)}
    ensures bucket.aliasNames == old(bucket.aliasNames) + RouteAliases(route, reverse)
    ensures bucket.ranked == old(bucket.ranked) + RouteCandidates(route, reverse)
  {
    hide Keeps, Names, CandidateNames, NormalizeModelName, Alias.Resolve;
    var routeName := TrimSpace(route.modelName);
    var source: Option<string> := None;
    if route.providerId in reverse {
      source := Alias.Resolve(reverse[route.providerId], routeName);
    }
    LowerTrim(route.modelName);
    NormalizedIsTrimmed(routeName);
    var sourceNormalized: string := [];
    if source.Some? {
      TrimSpaceTrimmed(source.value);
      NormalizedIsTrimmed(source.value);
      sourceNormalized := NormalizeModelName(source.value);
    }
    AddNames(bucket, routeName, NormalizeModelName(routeName), source, sourceNormalized);
  }

  // ---------------------------------------------------------------- buckets per semantic key

  /** Everything that the routes satisfying `p` contribute. */
  ghost function Gather<T(!new)>(routes: set<ModelRoute>, p: ModelRoute -> bool, f: ModelRoute -> set<T>): set<T> {
    set r, x | r in routes && p(r) && x in f(r) :: x
  }

  lemma GatherAdd<T(!new)>(routes: set<ModelRoute>, r: ModelRoute, p: ModelRoute -> bool, f: ModelRoute -> set<T>)
    ensures Gather(routes + {r}, p, f) == Gather(routes, p, f) + (if p(r) then f(r) else {})
  {
  }

  function InBucket(key: string): ModelRoute -> bool {
    r => Named(r) && SemanticKey(r) == key
  }

  function TargetsOf(): ModelRoute -> set<string> {
    r => {RouteName(r)}
  }

  function AliasesOf(reverse: ReverseLookups): ModelRoute -> set<string> {
    r => RouteAliases(r, reverse)
  }

  function CandidatesOf(reverse: ReverseLookups): ModelRoute -> set<Candidate> {
    r => RouteCandidates(r, reverse)
  }

  ghost function SemanticKeys(routes: set<ModelRoute>): set<string> {
    set r | r in routes && Named(r) :: SemanticKey(r)
  }

  ghost predicate Holds(b: Bucket, routes: set<ModelRoute>, reverse: ReverseLookups, p: ModelRoute -> bool)
    reads b
  {
    && b.Valid()
    && b.targetNames == Gather(routes, p, TargetsOf())
    && b.aliasNames == Gather(routes, p, AliasesOf(reverse))
    && b.ranked == Gather(routes, p, CandidatesOf(reverse))
  }

  lemma OneMoreRoute(routes: set<ModelRoute>, r: ModelRoute, reverse: ReverseLookups, p: ModelRoute -> bool)
    ensures Gather(routes + {r}, p, TargetsOf())
         == Gather(routes, p, TargetsOf()) + (if p(r) then {RouteName(r)} else {})
    ensures Gather(routes + {r}, p, AliasesOf(reverse))
         == Gather(routes, p, AliasesOf(reverse)) + (if p(r) then RouteAliases(r, reverse) else {})
    ensures Gather(routes + {r}, p, CandidatesOf(reverse))
         == Gather(routes, p, CandidatesOf(reverse)) + (if p(r) then RouteCandidates(r, reverse) else {})
  {
    GatherAdd(routes, r, p, TargetsOf());
    GatherAdd(routes, r, p, AliasesOf(reverse));
    GatherAdd(routes, r, p, CandidatesOf(reverse));
  }

  lemma EmptyBucket(routes: set<ModelRoute>, reverse: ReverseLookups, key: string)
    requires key !in SemanticKeys(routes)
    ensures Gather(routes, InBucket(key), TargetsOf()) == {}
    ensures Gather(routes, InBucket(key), AliasesOf(reverse)) == {}
    ensures Gather(routes, InBucket(key), CandidatesOf(reverse)) == {}
  {
    assert forall r :: r in routes ==> !InBucket(key)(r);
  }

  ghost function Elements<T>(s: seq<T>): set<T> {
    set x | x in s
  }

  ghost predicate Filled(buckets: map<string, Bucket>, routes: set<ModelRoute>, reverse: ReverseLookups)
    reads buckets.Values
  {
    && buckets.Keys == SemanticKeys(routes)
    && forall k :: k in buckets ==> Holds(buckets[k], routes, reverse, InBucket(k))
  }

  ghost predicate Separate(buckets: map<string, Bucket>) {
    forall j, k :: j in buckets && k in buckets && j != k ==> buckets[j] != buckets[k]
  }

  lemma KeysAdd(routes: set<ModelRoute>, r: ModelRoute)
    ensures SemanticKeys(routes + {r}) == SemanticKeys(routes) + (if Named(r) then {SemanticKey(r)} else {})
  {
  }

  lemma NoSemanticKeys()
    ensures SemanticKeys({}) == {}
  {
  }

  lemma OtherBucket(b: Bucket, routes: set<ModelRoute>, r: ModelRoute, reverse: ReverseLookups, key: string)
    requires Holds(b, routes, reverse, InBucket(key)) && !InBucket(key)(r)
    ensures Holds(b, routes + {r}, reverse, InBucket(key))
  {
    hide Keeps, Names, CandidateNames, Gather, RouteAliases, RouteCandidates;
    OneMoreRoute(routes, r, reverse, InBucket(key));
  }

  method ChooseSemanticKey(route: ModelRoute) returns (key: string)
    ensures key == SemanticKey(route)
  {
    hide TrimSpace, ToLower, NormalizeModelName;
    var routeName := TrimSpace(route.modelName);
    key := ToLower(routeName);
    var routeNormalized := NormalizeModelName(routeName);
    if routeNormalized != [] {
      key := routeNormalized;
    }
  }

  /** One named route goes to the bucket of its semantic key; the other buckets stay as they are. */
  method AddToBuckets(buckets: map<string, Bucket>, route: ModelRoute, reverse: ReverseLookups,
                      ghost seen: set<ModelRoute>)
      returns (next: map<string, Bucket>)
    requires Named(route) && Separate(buckets) && Filled(buckets, seen, reverse)
    modifies buckets.Values
    ensures Separate(next) && Filled(next, seen + {route}, reverse)
    ensures forall k :: k in next ==> fresh(next[k]) || (k in buckets && next[k] == buckets[k])
  {
    hide Holds, Bucket.Valid, SemanticKey, SemanticKeys;
    next := buckets;
    var key := ChooseSemanticKey(route);
    if key !in next {
      var bucket := NewBucket(seen, reverse, key);
      next := next[key := bucket];
    }
    forall k | k in next && k != key ensures Holds(next[k], seen + {route}, reverse, InBucket(k)) {
      OtherBucket(next[k], seen, route, reverse, k);
    }
    KeysAdd(seen, route);
    AddToBucket(next[key], route, reverse, seen);
  }

  /** A bucket for a key that no route seen so far has. */
  method NewBucket(ghost seen: set<ModelRoute>, ghost reverse: ReverseLookups, ghost key: string) returns (b: Bucket)
    requires key !in SemanticKeys(seen)
    ensures fresh(b) && Holds(b, seen, reverse, InBucket(key))
  {
    hide Bucket.Valid, Gather, SemanticKeys;
    EmptyBucket(seen, reverse, key);
    b := new Bucket();
  }

  method AddToBucket(b: Bucket, route: ModelRoute, reverse: ReverseLookups, ghost seen: set<ModelRoute>)
    requires Named(route) && Holds(b, seen, reverse, InBucket(SemanticKey(route)))
    modifies b
    ensures Holds(b, seen + {route}, reverse, InBucket(SemanticKey(route)))
  {
    hide Bucket.Valid, Gather, SemanticKey, RouteAliases, RouteCandidates;
    OneMoreRoute(seen, route, reverse, InBucket(SemanticKey(route)));
    AddRoute(b, route, reverse);
  }

  /** The first pass: one bucket per semantic key, filled route by route. */
  method FillSemanticBuckets(routes: seq<ModelRoute>, reverse: ReverseLookups) returns (buckets: map<string, Bucket>)
    ensures Separate(buckets) && Filled(buckets, Elements(routes), reverse)
    ensures forall k :: k in buckets ==> fresh(buckets[k])
  {
    hide Keeps, Names, CandidateNames, Gather, SemanticKey, SemanticKeys, RouteAliases, RouteCandidates, Holds,
         TrimSpace;
    buckets := map[];
    NoSemanticKeys();
    assert Elements(routes[..0]) == {};
    for i := 0 to |routes|
      invariant forall k :: k in buckets ==> fresh(buckets[k])
      invariant Separate(buckets) && Filled(buckets, Elements(routes[..i]), reverse)
    {
      var route := routes[i];
      ghost var seen := Elements(routes[..i]);
      assert Elements(routes[..i + 1]) == seen + {route};
      KeysAdd(seen, route);
      if TrimSpace(route.modelName) == [] {
        forall k | k in buckets ensures Holds(buckets[k], seen + {route}, reverse, InBucket(k)) {
          OtherBucket(buckets[k], seen, route, reverse, k);
        }
        continue;
      }
      buckets := AddToBuckets(buckets, route, reverse, seen);
    }
    assert routes[..|routes|] == routes;
  }

  // ---------------------------------------------------------------- canonical names

  lemma {:induction false} LeastExists(items: set<Candidate>)
    requires items != {} && CandidateNames(items)
    ensures exists c :: IsLeast(items, c)
  {
    var x :| x in items;
    var rest := items - {x};
    if rest == {} {
      assert items == {x};
      assert IsLeast(items, x);
    } else {
      LeastExists(rest);
      var c :| IsLeast(rest, c);
      CandidateBeforeIsOrder();
      NamesComparable(x.name, c.name);
      assert items == rest + {x};
      if CandidateBefore(x, c) {
        assert IsLeast(items, x);
      } else {
        assert IsLeast(items, c);
      }
    }
  }

  lemma LeastUnique(items: set<Candidate>, c: Candidate, d: Candidate)
    requires IsLeast(items, c) && IsLeast(items, d)
    ensures c == d
  {
    CandidateBeforeIsOrder();
  }

  lemma GatheredNames(routes: set<ModelRoute>, reverse: ReverseLookups, p: ModelRoute -> bool)
    requires forall r :: p(r) ==> Named(r)
    ensures Names(Gather(routes, p, TargetsOf()))
    ensures Names(Gather(routes, p, AliasesOf(reverse)))
    ensures CandidateNames(Gather(routes, p, CandidatesOf(reverse)))
  {
    forall r | r in routes && p(r)
      ensures Names(TargetsOf()(r)) && Names(AliasesOf(reverse)(r)) && CandidateNames(CandidatesOf(reverse)(r))
    {
      ContributionNames(r, reverse);
    }
  }

  lemma ContributionNames(r: ModelRoute, reverse: ReverseLookups)
    requires Named(r)
    ensures IsName(RouteName(r)) && Names(RouteAliases(r, reverse)) && CandidateNames(RouteCandidates(r, reverse))
    ensures forall c :: c in RouteCandidates(r, reverse) ==> c.name in RouteAliases(r, reverse)
  {
    hide NormalizeModelName, Alias.Resolve;
    TrimSpaceTrimmed(r.modelName);
    NormalizedNames(RouteName(r));
    var source := AliasSource(r, reverse);
    if source.Some? {
      NormalizedNames(source.value);
    }
  }

  lemma NormalizedNames(name: string)
    ensures Names(Nonblank(NormalizeModelName(name)))
  {
    NormalizedIsTrimmed(name);
    TrimSpaceTrimmed(NormalizeModelName(name));
  }

  /**
   * The canonical name of a semantic key: its least candidate, alias sources first, then normal forms, then raw names.
   */
  ghost function Canonical(routes: set<ModelRoute>, reverse: ReverseLookups, key: string): (name: string)
    requires key in SemanticKeys(routes)
    ensures exists rank :: IsLeast(Gather(routes, InBucket(key), CandidatesOf(reverse)), Candidate(name, rank))
  {
    CanonicalExists(routes, reverse, key);
    var c :| IsLeast(Gather(routes, InBucket(key), CandidatesOf(reverse)), c);
    assert c == Candidate(c.name, c.rank);
    c.name
  }

  lemma CanonicalExists(routes: set<ModelRoute>, reverse: ReverseLookups, key: string)
    requires key in SemanticKeys(routes)
    ensures exists c :: IsLeast(Gather(routes, InBucket(key), CandidatesOf(reverse)), c)
  {
    hide NormalizeModelName;
    var r :| r in routes && Named(r) && SemanticKey(r) == key;
    assert InBucket(key)(r) && Candidate(RouteName(r), 3) in CandidatesOf(reverse)(r);
    assert Candidate(RouteName(r), 3) in Gather(routes, InBucket(key), CandidatesOf(reverse));
    GatheredNames(routes, reverse, InBucket(key));
    LeastExists(Gather(routes, InBucket(key), CandidatesOf(reverse)));
  }

  /** The chosen name is one of the aliases of its bucket. */
  lemma CanonicalIsAlias(routes: set<ModelRoute>, reverse: ReverseLookups, key: string)
    requires key in SemanticKeys(routes)
    ensures IsName(Canonical(routes, reverse, key))
    ensures Canonical(routes, reverse, key) in Gather(routes, InBucket(key), AliasesOf(reverse))
  {
    hide NormalizeModelName, RouteAliases, RouteCandidates;
    var name := Canonical(routes, reverse, key);
    var rank :| IsLeast(Gather(routes, InBucket(key), CandidatesOf(reverse)), Candidate(name, rank));
    var r :| r in routes && InBucket(key)(r) && Candidate(name, rank) in CandidatesOf(reverse)(r);
    ContributionNames(r, reverse);
    assert name in AliasesOf(reverse)(r);
  }

  /** The folded canonical name under which a route is listed. */
  ghost function Home(routes: set<ModelRoute>, reverse: ReverseLookups, key: string): string
    requires key in SemanticKeys(routes)
  {
    ToLower(Canonical(routes, reverse, key))
  }

  // ---------------------------------------------------------------- the second pass: one bucket per canonical name

  /** Leaving out names that a kept one precedes does not change what is kept. */
  lemma KeepsWiden(m: map<string, string>, names: set<string>, more: set<string>)
    requires Keeps(m, names, NameKey, TextBefore) && names <= more
    requires forall n :: n in more ==>
               exists k :: k in names && NameKey(k) == NameKey(n) && (k == n || TextBefore(k, n))
    ensures Keeps(m, more, NameKey, TextBefore)
  {
    TextBeforeIsOrder();
    forall n | n in more ensures NameKey(n) in m && (n == m[NameKey(n)] || TextBefore(m[NameKey(n)], n)) {
      var k :| k in names && NameKey(k) == NameKey(n) && (k == n || TextBefore(k, n));
      assert k == m[NameKey(k)] || TextBefore(m[NameKey(k)], k);
    }
  }

  lemma ValuesCover(m: map<string, string>, names: set<string>)
    requires Keeps(m, names, NameKey, TextBefore)
    ensures m.Values <= names
    ensures forall n :: n in names ==>
              exists k :: k in m.Values && NameKey(k) == NameKey(n) && (k == n || TextBefore(k, n))
  {
    forall n | n in names
      ensures exists k :: k in m.Values && NameKey(k) == NameKey(n) && (k == n || TextBefore(k, n))
    {
      var k := m[NameKey(n)];
      assert k in m.Values;
    }
  }

  lemma WidenUnion(m: map<string, string>, base: set<string>, kept: map<string, string>, names: set<string>)
    requires Keeps(m, base + kept.Values, NameKey, TextBefore) && Keeps(kept, names, NameKey, TextBefore)
    ensures Keeps(m, base + names, NameKey, TextBefore)
  {
    ValuesCover(kept, names);
    forall n | n in base + names
      ensures exists k :: k in base + kept.Values && NameKey(k) == NameKey(n) && (k == n || TextBefore(k, n))
    {
      if n in base {
        assert n in base + kept.Values;
      } else {
        var k :| k in kept.Values && NameKey(k) == NameKey(n) && (k == n || TextBefore(k, n));
        assert k in base + kept.Values;
      }
    }
    KeepsWiden(m, base + kept.Values, base + names);
  }

  /** The merging loops: every alias and target the other bucket kept goes into this one. */
  method Absorb(merged: Bucket, bucket: Bucket)
    requires merged != bucket && merged.Valid() && bucket.Valid()
    modifies merged`routeTargets, merged`aliases, merged`targetNames, merged`aliasNames
    ensures merged.Valid()
    ensures merged.targetNames == old(merged.targetNames) + bucket.targetNames
    ensures merged.aliasNames == old(merged.aliasNames) + bucket.aliasNames
  {
    hide Keeps, Names, CandidateNames;
    AbsorbAliases(merged, bucket.aliases, bucket.aliasNames);
    AbsorbTargets(merged, bucket.routeTargets, bucket.targetNames);
  }

  method AbsorbAliases(merged: Bucket, kept: map<string, string>, ghost names: set<string>)
    requires merged.Valid() && Names(names) && Keeps(kept, names, NameKey, TextBefore)
    modifies merged`aliases, merged`aliasNames
    ensures merged.Valid() && merged.aliasNames == old(merged.aliasNames) + names
  {
    hide TextBefore, Keeps, CandidateNames;
    ghost var base := merged.aliasNames;
    var values := KeptValues(kept, names);
    for i := 0 to |values|
      invariant merged.Valid() && merged.aliasNames == base + Elements(values[..i])
    {
      KeptNames(kept, names, values, i);
      merged.AddAlias(values[i]);
    }
    assert Elements(values[..|values|]) == kept.Values;
    WidenUnion(merged.aliases, base, kept, names);
    merged.aliasNames := base + names;
  }

  method AbsorbTargets(merged: Bucket, kept: map<string, string>, ghost names: set<string>)
    requires merged.Valid() && Names(names) && Keeps(kept, names, NameKey, TextBefore)
    modifies merged`routeTargets, merged`targetNames
    ensures merged.Valid() && merged.targetNames == old(merged.targetNames) + names
  {
    hide TextBefore, Keeps, CandidateNames;
    ghost var base := merged.targetNames;
    var values := KeptValues(kept, names);
    for i := 0 to |values|
      invariant merged.Valid() && merged.targetNames == base + Elements(values[..i])
    {
      KeptNames(kept, names, values, i);
      merged.AddRouteTarget(values[i]);
    }
    assert Elements(values[..|values|]) == kept.Values;
    WidenUnion(merged.routeTargets, base, kept, names);
    merged.targetNames := base + names;
  }

  method KeptValues(kept: map<string, string>, ghost names: set<string>) returns (values: seq<string>)
    requires Names(names) && Keeps(kept, names, NameKey, TextBefore)
    ensures InTextOrder(values, kept)
  {
    hide TextBefore;
    values := SortedMapValues(kept);
  }

  lemma KeptNames(m: map<string, string>, names: set<string>, values: seq<string>, i: nat)
    requires Names(names) && Keeps(m, names, NameKey, TextBefore) && InTextOrder(values, m) && i < |values|
    ensures TrimSpace(values[i]) == values[i] != []
    ensures Elements(values[..i + 1]) == Elements(values[..i]) + {values[i]}
  {
    assert values[i] in m.Values;
    TrimSpaceTrimmed(values[i]);
    assert values[..i + 1] == values[..i] + [values[i]];
  }

  /** The routes listed under the folded canonical name `home`, counting only the given semantic keys. */
  ghost function InHome(routes: set<ModelRoute>, reverse: ReverseLookups, keys: set<string>,
                        home: string): ModelRoute -> bool
    requires keys <= SemanticKeys(routes)
  {
    r => Named(r) && SemanticKey(r) in keys && Home(routes, reverse, SemanticKey(r)) == home
  }

  ghost function HomeNames(routes: set<ModelRoute>, reverse: ReverseLookups, keys: set<string>,
                           home: string): set<string>
    requires keys <= SemanticKeys(routes)
  {
    set k | k in keys && Home(routes, reverse, k) == home :: Canonical(routes, reverse, k)
  }

  ghost function Homes(routes: set<ModelRoute>, reverse: ReverseLookups, keys: set<string>): set<string>
    requires keys <= SemanticKeys(routes)
  {
    set k | k in keys :: Home(routes, reverse, k)
  }

  ghost predicate FirstName(names: set<string>, n: string) {
    n in names && forall m :: m in names ==> m == n || TextBefore(n, m)
  }

  ghost predicate HoldsHome(b: Bucket, routes: set<ModelRoute>, reverse: ReverseLookups, keys: set<string>,
                            home: string)
    requires keys <= SemanticKeys(routes)
    reads b
  {
    && b.Valid()
    && FirstName(HomeNames(routes, reverse, keys, home), b.canonicalName)
    && b.targetNames == Gather(routes, InHome(routes, reverse, keys, home), TargetsOf())
    && b.aliasNames == Gather(routes, InHome(routes, reverse, keys, home), AliasesOf(reverse))
  }

  ghost predicate Merged(buckets: map<string, Bucket>, routes: set<ModelRoute>, reverse: ReverseLookups,
                         keys: set<string>)
    reads buckets.Values
  {
    && keys <= SemanticKeys(routes)
    && buckets.Keys == Homes(routes, reverse, keys)
    && forall h :: h in buckets ==> HoldsHome(buckets[h], routes, reverse, keys, h)
  }

  lemma GatherSplit<T(!new)>(routes: set<ModelRoute>, p: ModelRoute -> bool, q: ModelRoute -> bool,
                      s: ModelRoute -> bool,
                             f: ModelRoute -> set<T>)
    requires forall r :: r in routes ==> (p(r) <==> q(r) || s(r))
    ensures Gather(routes, p, f) == Gather(routes, q, f) + Gather(routes, s, f)
  {
  }

  lemma GatherSame<T(!new)>(routes: set<ModelRoute>, p: ModelRoute -> bool, q: ModelRoute -> bool,
                     f: ModelRoute -> set<T>)
    requires forall r :: r in routes ==> (p(r) <==> q(r))
    ensures Gather(routes, p, f) == Gather(routes, q, f)
  {
  }

  /** One more semantic key adds its bucket to its own home and leaves the other homes alone. */
  lemma OneMoreKey(routes: set<ModelRoute>, reverse: ReverseLookups, keys: set<string>, key: string, home: string)
    requires keys <= SemanticKeys(routes) && key in SemanticKeys(routes)
    ensures var q := InHome(routes, reverse, keys, home);
            var p := InHome(routes, reverse, keys + {key}, home);
            if Home(routes, reverse, key) == home then
              && Gather(routes, p, TargetsOf())
                 == Gather(routes, q, TargetsOf()) + Gather(routes, InBucket(key), TargetsOf())
              && Gather(routes, p, AliasesOf(reverse))
                 == Gather(routes, q, AliasesOf(reverse)) + Gather(routes, InBucket(key), AliasesOf(reverse))
              && HomeNames(routes, reverse, keys + {key}, home)
                 == HomeNames(routes, reverse, keys, home) + {Canonical(routes, reverse, key)}
            else
              && Gather(routes, p, TargetsOf()) == Gather(routes, q, TargetsOf())
              && Gather(routes, p, AliasesOf(reverse)) == Gather(routes, q, AliasesOf(reverse))
              && HomeNames(routes, reverse, keys + {key}, home) == HomeNames(routes, reverse, keys, home)
  {
    hide Gather, SemanticKey, SemanticKeys;
    var q := InHome(routes, reverse, keys, home);
    var p := InHome(routes, reverse, keys + {key}, home);
    if Home(routes, reverse, key) == home {
      GatherSplit(routes, p, q, InBucket(key), TargetsOf());
      GatherSplit(routes, p, q, InBucket(key), AliasesOf(reverse));
    } else {
      GatherSame(routes, p, q, TargetsOf());
      GatherSame(routes, p, q, AliasesOf(reverse));
    }
  }

  lemma EmptyHome(routes: set<ModelRoute>, reverse: ReverseLookups, keys: set<string>, home: string)
    requires keys <= SemanticKeys(routes) && home !in Homes(routes, reverse, keys)
    ensures Gather(routes, InHome(routes, reverse, keys, home), TargetsOf()) == {}
    ensures Gather(routes, InHome(routes, reverse, keys, home), AliasesOf(reverse)) == {}
    ensures HomeNames(routes, reverse, keys, home) == {}
  {
    hide SemanticKey, SemanticKeys;
    assert forall r :: r in routes ==> !InHome(routes, reverse, keys, home)(r);
  }

  lemma FirstNameAdd(names: set<string>, first: string, n: string)
    requires FirstName(names, first) && (n == first || TextBefore(n, first) || TextBefore(first, n))
    ensures FirstName(names + {n}, if TextBefore(n, first) then n else first)
  {
    TextBeforeIsOrder();
  }

  /** The bucket of one semantic key goes into its home, which is either new or already holds earlier keys. */
  method AbsorbKey(home: Bucket, bucket: Bucket, canonical: string, key: string,
                   ghost routes: set<ModelRoute>, ghost reverse: ReverseLookups, ghost keys: set<string>)
    requires home != bucket
    requires keys <= SemanticKeys(routes) && key in SemanticKeys(routes)
    requires Holds(bucket, routes, reverse, InBucket(key))
    requires canonical == Canonical(routes, reverse, key)
    requires if ToLower(canonical) in Homes(routes, reverse, keys)
             then HoldsHome(home, routes, reverse, keys, ToLower(canonical))
             else home.Valid() && home.canonicalName == [] && home.targetNames == {} && home.aliasNames == {}
    modifies home
    ensures HoldsHome(home, routes, reverse, keys + {key}, ToLower(canonical))
  {
    hide Keeps, Names, CandidateNames, Gather, SemanticKey, SemanticKeys, RouteAliases, RouteCandidates,
         CompareTextStable;
    hide HomeNames, FirstName, Homes, InHome, TextBefore;
    CompareMeaning();
    ghost var lower := ToLower(canonical);
    CanonicalIsAlias(routes, reverse, key);
    OneMoreKey(routes, reverse, keys, key, lower);
    if lower in Homes(routes, reverse, keys) {
      FirstAmongHomes(routes, reverse, keys, lower, home.canonicalName, canonical);
    } else {
      EmptyHome(routes, reverse, keys, lower);
      SingleFirst(canonical);
    }
    if home.canonicalName == [] || CompareTextStable(canonical, home.canonicalName) < 0 {
      home.canonicalName := canonical;
    }
    Absorb(home, bucket);
  }

  method MergeOne(merged: map<string, Bucket>, bucket: Bucket, key: string,
                  ghost routes: set<ModelRoute>, ghost reverse: ReverseLookups, ghost keys: set<string>)
      returns (next: map<string, Bucket>)
    requires key in SemanticKeys(routes) && Holds(bucket, routes, reverse, InBucket(key))
    requires Separate(merged) && Merged(merged, routes, reverse, keys) && bucket !in merged.Values
    modifies merged.Values
    ensures Separate(next) && Merged(next, routes, reverse, keys + {key})
    ensures forall h :: h in next ==> fresh(next[h]) || (h in merged && next[h] == merged[h])
  {
    hide Bucket.Valid, Holds, SemanticKeys, HoldsHome, ToLower, Homes, Canonical, Merged;
    CanonicalExists(routes, reverse, key);
    var canonical := CanonicalOf(bucket, routes, reverse, key);
    if ToLower(canonical) in merged {
      MergeKnown(merged, bucket, canonical, key, routes, reverse, keys);
      next := merged;
    } else {
      next := MergeNew(merged, bucket, canonical, key, routes, reverse, keys);
    }
  }

  method MergeNew(merged: map<string, Bucket>, bucket: Bucket, canonical: string, key: string,
                  ghost routes: set<ModelRoute>, ghost reverse: ReverseLookups, ghost keys: set<string>)
      returns (next: map<string, Bucket>)
    requires key in SemanticKeys(routes) && Holds(bucket, routes, reverse, InBucket(key))
    requires Separate(merged) && Merged(merged, routes, reverse, keys)
    requires canonical == Canonical(routes, reverse, key) && ToLower(canonical) !in merged
    ensures Separate(next) && Merged(next, routes, reverse, keys + {key})
    ensures forall h :: h in next ==> fresh(next[h]) || (h in merged && next[h] == merged[h])
  {
    hide Bucket.Valid, Holds, SemanticKeys, HoldsHome, ToLower, Homes, Canonical, Separate;
    assert keys <= SemanticKeys(routes) && merged.Keys == Homes(routes, reverse, keys);
    hide Merged;
    var added := AbsorbNew(bucket, canonical, key, routes, reverse, keys);
    assert added !in merged.Values;
    OneMoreHome(merged, added, ToLower(canonical), routes, reverse, keys, key);
    next := merged[ToLower(canonical) := added];
  }

  lemma OneMoreHome(merged: map<string, Bucket>, added: Bucket, home: string,
                    routes: set<ModelRoute>, reverse: ReverseLookups, keys: set<string>, key: string)
    requires key in SemanticKeys(routes) && Separate(merged) && Merged(merged, routes, reverse, keys)
    requires home == Home(routes, reverse, key) && home !in merged && added !in merged.Values
    requires HoldsHome(added, routes, reverse, keys + {key}, home)
    ensures Separate(merged[home := added]) && Merged(merged[home := added], routes, reverse, keys + {key})
  {
    hide SemanticKeys, HoldsHome, Homes, Home;
    MoreHomes(merged, routes, reverse, keys, key);
    assert merged[home := added].Keys == merged.Keys + {home};
  }

  /** The other homes hold what they held. */
  lemma MoreHomes(merged: map<string, Bucket>, routes: set<ModelRoute>, reverse: ReverseLookups,
                  keys: set<string>, key: string)
    requires key in SemanticKeys(routes) && Merged(merged, routes, reverse, keys)
    ensures keys + {key} <= SemanticKeys(routes)
    ensures Homes(routes, reverse, keys + {key}) == merged.Keys + {Home(routes, reverse, key)}
    ensures forall h :: h in merged && h != Home(routes, reverse, key) ==>
              HoldsHome(merged[h], routes, reverse, keys + {key}, h)
  {
    hide SemanticKeys, HoldsHome, Homes, Home;
    HomesNext(routes, reverse, keys, key);
    forall h | h in merged && h != Home(routes, reverse, key)
      ensures HoldsHome(merged[h], routes, reverse, keys + {key}, h)
    {
      OtherHome(merged[h], routes, reverse, keys, key, h);
    }
  }

  method MergeKnown(merged: map<string, Bucket>, bucket: Bucket, canonical: string, key: string,
                    ghost routes: set<ModelRoute>, ghost reverse: ReverseLookups, ghost keys: set<string>)
    requires key in SemanticKeys(routes) && Holds(bucket, routes, reverse, InBucket(key))
    requires Separate(merged) && Merged(merged, routes, reverse, keys) && bucket !in merged.Values
    requires canonical == Canonical(routes, reverse, key) && ToLower(canonical) in merged
    modifies merged[ToLower(canonical)]
    ensures Merged(merged, routes, reverse, keys + {key})
  {
    hide Bucket.Valid, Holds, SemanticKeys, HoldsHome, ToLower, Homes, Canonical;
    MoreHomes(merged, routes, reverse, keys, key);
    assert Home(routes, reverse, key) == ToLower(canonical);
    hide Home;
    AbsorbKey(merged[ToLower(canonical)], bucket, canonical, key, routes, reverse, keys);
  }

  /** The same for a home that is new. */
  method AbsorbNew(bucket: Bucket, canonical: string, key: string,
                   ghost routes: set<ModelRoute>, ghost reverse: ReverseLookups, ghost keys: set<string>)
      returns (home: Bucket)
    requires keys <= SemanticKeys(routes) && key in SemanticKeys(routes)
    requires Holds(bucket, routes, reverse, InBucket(key))
    requires canonical == Canonical(routes, reverse, key) && ToLower(canonical) !in Homes(routes, reverse, keys)
    ensures fresh(home) && HoldsHome(home, routes, reverse, keys + {key}, ToLower(canonical))
  {
    hide Bucket.Valid, Holds, SemanticKeys, HoldsHome, ToLower, Homes, Canonical;
    home := new Bucket();
    AbsorbKey(home, bucket, canonical, key, routes, reverse, keys);
  }

  lemma HomesNext(routes: set<ModelRoute>, reverse: ReverseLookups, keys: set<string>, key: string)
    requires keys <= SemanticKeys(routes) && key in SemanticKeys(routes)
    ensures Homes(routes, reverse, keys + {key}) == Homes(routes, reverse, keys) + {Home(routes, reverse, key)}
  {
    hide SemanticKeys, Home;
  }

  method CanonicalOf(bucket: Bucket, ghost routes: set<ModelRoute>, ghost reverse: ReverseLookups, ghost key: string)
      returns (canonical: string)
    requires key in SemanticKeys(routes) && Holds(bucket, routes, reverse, InBucket(key))
    ensures canonical == Canonical(routes, reverse, key)
  {
    hide Keeps, Names, CandidateNames, Gather, SemanticKey, SemanticKeys, TextBefore;
    CanonicalExists(routes, reverse, key);
    canonical := bucket.ChooseCanonicalName();
    SameCanonical(bucket.ranked, canonical, Canonical(routes, reverse, key));
  }

  lemma SameCanonical(items: set<Candidate>, a: string, b: string)
    requires exists rank :: IsLeast(items, Candidate(a, rank))
    requires exists rank :: IsLeast(items, Candidate(b, rank))
    ensures a == b
  {
    var i :| IsLeast(items, Candidate(a, i));
    var j :| IsLeast(items, Candidate(b, j));
    LeastUnique(items, Candidate(a, i), Candidate(b, j));
  }

  lemma SingleFirst(n: string)
    ensures FirstName({n}, n) && FirstName({} + {n}, n)
  {
  }

  lemma FirstAmongHomes(routes: set<ModelRoute>, reverse: ReverseLookups, keys: set<string>, home: string,
                        first: string, n: string)
    requires keys <= SemanticKeys(routes) && FirstName(HomeNames(routes, reverse, keys, home), first) && IsName(n)
    ensures first != []
    ensures FirstName(HomeNames(routes, reverse, keys, home) + {n}, if TextBefore(n, first) then n else first)
  {
    hide SemanticKey, SemanticKeys;
    var k :| k in keys && Home(routes, reverse, k) == home && Canonical(routes, reverse, k) == first;
    CanonicalIsAlias(routes, reverse, k);
    NamesComparable(n, first);
    FirstNameAdd(HomeNames(routes, reverse, keys, home), first, n);
  }

  lemma OtherHome(b: Bucket, routes: set<ModelRoute>, reverse: ReverseLookups, keys: set<string>, key: string,
                  home: string)
    requires keys <= SemanticKeys(routes) && key in SemanticKeys(routes) && Home(routes, reverse, key) != home
    requires HoldsHome(b, routes, reverse, keys, home)
    ensures HoldsHome(b, routes, reverse, keys + {key}, home)
  {
    hide Keeps, Names, CandidateNames, Gather, SemanticKey, SemanticKeys, HomeNames, FirstName;
    OneMoreKey(routes, reverse, keys, key, home);
  }

  lemma NothingMerged(routes: set<ModelRoute>, reverse: ReverseLookups)
    ensures Merged(map[], routes, reverse, {})
  {
  }

  /** The second pass: the buckets of one canonical name are merged, in the order of their semantic keys. */
  method MergeBuckets(buckets: map<string, Bucket>, ghost routes: set<ModelRoute>, ghost reverse: ReverseLookups)
      returns (merged: map<string, Bucket>)
    requires Separate(buckets) && Filled(buckets, routes, reverse)
    ensures Separate(merged) && Merged(merged, routes, reverse, SemanticKeys(routes))
    ensures forall h :: h in merged ==> fresh(merged[h])
  {
    hide Bucket.Valid, Gather, SemanticKey, SemanticKeys, HoldsHome, Merged, Less;
    var walk := AnyOrder(buckets.Keys);
    LessIsTotal();
    var semanticKeys := SortSlice(Less, walk);
    SameElements(walk, semanticKeys);
    merged := map[];
    NothingMerged(routes, reverse);
    assert Elements(semanticKeys[..0]) == {};
    for i := 0 to |semanticKeys|
      invariant forall h :: h in merged ==> fresh(merged[h])
      invariant Separate(merged) && Merged(merged, routes, reverse, Elements(semanticKeys[..i]))
    {
      var key := semanticKeys[i];
      assert semanticKeys[..i + 1] == semanticKeys[..i] + [key];
      assert Elements(semanticKeys[..i + 1]) == Elements(semanticKeys[..i]) + {key};
      merged := MergeOne(merged, buckets[key], key, routes, reverse, Elements(semanticKeys[..i]));
    }
    assert Elements(semanticKeys[..|semanticKeys|]) == SemanticKeys(routes);
  }

  // ---------------------------------------------------------------- the third pass: entries

  /** The list names every fold among `names` once, by its first spelling, in text order. */
  ghost predicate Lists(list: seq<string>, names: set<string>) {
    && StrictlySorted(TextBefore, list)
    && (forall n :: n in list ==> n in names)
    && (forall n, m :: n in list && m in names && NameKey(m) == NameKey(n) ==> m == n || TextBefore(n, m))
    && FoldsOf(Elements(list)) == FoldsOf(names)
  }

  ghost function FoldsOf(names: set<string>): set<string> {
    set n | n in names :: NameKey(n)
  }

  lemma KeptLists(m: map<string, string>, names: set<string>, list: seq<string>)
    requires Keeps(m, names, NameKey, TextBefore) && InTextOrder(list, m)
    ensures Lists(list, names)
  {
    hide TextBefore;
    forall n | n in list
      ensures n in names
      ensures forall x :: x in names && NameKey(x) == NameKey(n) ==> x == n || TextBefore(n, x)
    {
      var k :| k in m && m[k] == n;
    }
    forall x | x in names ensures NameKey(x) in FoldsOf(Elements(list)) {
      assert m[NameKey(x)] in m.Values;
      assert m[NameKey(x)] in Elements(list);
    }
    assert Elements(list) <= names;
    assert FoldsOf(Elements(list)) <= FoldsOf(names);
  }

  lemma ListsUnique(a: seq<string>, b: seq<string>, names: set<string>)
    requires Lists(a, names) && Lists(b, names)
    ensures a == b
  {
    hide TextBefore, FoldsOf;
    forall x ensures x in a <==> x in b {
      if x in a { ListedOnce(a, b, names, x); }
      if x in b { ListedOnce(b, a, names, x); }
    }
    TextBeforeIsOrder();
    StrictlySortedUnique(TextBefore, a, b);
  }

  lemma ListedOnce(a: seq<string>, b: seq<string>, names: set<string>, x: string)
    requires Lists(a, names) && Lists(b, names) && x in a
    ensures x in b
  {
    hide TextBefore, StrictlySorted;
    assert x in names && NameKey(x) in FoldsOf(Elements(b));
    var y :| y in Elements(b) && NameKey(y) == NameKey(x);
    assert y in names;
    assert y == x || TextBefore(x, y);
    assert x == y || TextBefore(y, x);
    TextBeforeFacts(x, y, x);
  }

  /** The entry listed under a folded canonical name, said directly in terms of the routes. */
  ghost predicate IsEntry(e: Entry, routes: set<ModelRoute>, reverse: ReverseLookups, home: string) {
    var keys := SemanticKeys(routes);
    && FirstName(HomeNames(routes, reverse, keys, home), e.canonicalModel)
    && Lists(e.aliases, Gather(routes, InHome(routes, reverse, keys, home), AliasesOf(reverse)))
    && Lists(e.routeTargets, Gather(routes, InHome(routes, reverse, keys, home), TargetsOf()))
  }

  /** The entries of the catalog: one per folded canonical name, in the order of those names. */
  ghost predicate IsCatalog(entries: seq<Entry>, routes: set<ModelRoute>, reverse: ReverseLookups) {
    var homes := SortedElements(Homes(routes, reverse, SemanticKeys(routes)));
    && |entries| == |homes|
    && forall i :: 0 <= i < |entries| ==> IsEntry(entries[i], routes, reverse, homes[i])
  }

  method MakeEntry(bucket: Bucket, ghost routes: set<ModelRoute>, ghost reverse: ReverseLookups, ghost home: string)
      returns (entry: Entry)
    requires HoldsHome(bucket, routes, reverse, SemanticKeys(routes), home)
    modifies bucket
    ensures IsEntry(entry, routes, reverse, home)
  {
    hide Keeps, Names, CandidateNames, Gather, SemanticKey, SemanticKeys, TextBefore, HomeNames, FirstName, InHome,
         Lists;
    CanonicalAmongAliases(routes, reverse, home, bucket.canonicalName);
    var canonical := TrimSpace(bucket.canonicalName);
    ghost var names := bucket.aliasNames;
    bucket.AddAlias(canonical);
    assert bucket.aliasNames == names;
    var aliases := ListedValues(bucket.aliases, names);
    var targets := ListedValues(bucket.routeTargets, bucket.targetNames);
    entry := Entry(canonical, aliases, targets);
  }

  method ListedValues(m: map<string, string>, ghost names: set<string>) returns (list: seq<string>)
    requires Names(names) && Keeps(m, names, NameKey, TextBefore)
    ensures Lists(list, names)
  {
    hide TextBefore, Lists;
    list := SortedMapValues(m);
    KeptLists(m, names, list);
  }

  lemma CanonicalAmongAliases(routes: set<ModelRoute>, reverse: ReverseLookups, home: string, name: string)
    requires FirstName(HomeNames(routes, reverse, SemanticKeys(routes), home), name)
    ensures TrimSpace(name) == name != [] && ToLower(name) == home
    ensures name in Gather(routes, InHome(routes, reverse, SemanticKeys(routes), home), AliasesOf(reverse))
  {
    hide SemanticKey, SemanticKeys, RouteAliases;
    var k :| k in SemanticKeys(routes) && Home(routes, reverse, k) == home && Canonical(routes, reverse, k) == name;
    CanonicalIsAlias(routes, reverse, k);
    TrimSpaceTrimmed(name);
    var r :| r in routes && InBucket(k)(r) && name in AliasesOf(reverse)(r);
    assert InHome(routes, reverse, SemanticKeys(routes), home)(r);
  }

  /** The whole build. */
  method BuildModelCatalogSnapshot(routes: seq<ModelRoute>, reverse: ReverseLookups) returns (snapshot: Snapshot)
    ensures fresh(snapshot)
    ensures IsCatalog(snapshot.entries, Elements(routes), reverse)
    ensures snapshot.Value() == Indexed(snapshot.entries)
  {
    hide Bucket.Valid, Gather, SemanticKey, SemanticKeys, IsEntry, HoldsHome, Indexed, AddEntry, Snapshot.Value, Less,
         Filled, StrictlySorted;
    ghost var all := Elements(routes);
    snapshot := new Snapshot();
    var semantic := FillSemanticBuckets(routes, reverse);
    var merged := MergeBuckets(semantic, all, reverse);
    var canonicalKeys := SortedNames(merged.Keys);
    NothingIndexed();
    SnapshotEntries(snapshot);
    NothingListed(merged, all, reverse, canonicalKeys);
    for i := 0 to |canonicalKeys|
      invariant fresh(snapshot) && snapshot.Value() == Indexed(snapshot.entries)
      invariant ListedUpTo(snapshot.entries, merged, all, reverse, canonicalKeys, i)
    {
      ListHome(snapshot, merged, all, reverse, canonicalKeys, i);
    }
  }

  /** The homes before `i` have their entries, the others still wait. */
  ghost predicate ListedUpTo(entries: seq<Entry>, merged: map<string, Bucket>, all: set<ModelRoute>,
                             reverse: ReverseLookups,
                             homes: seq<string>, i: nat)
    reads merged.Values
  {
    && i <= |homes| && |entries| == i
    && (forall j :: 0 <= j < |homes| ==> homes[j] in merged)
    && (forall j :: 0 <= j < i ==> IsEntry(entries[j], all, reverse, homes[j]))
    && (forall j :: i <= j < |homes| ==> HoldsHome(merged[homes[j]], all, reverse, SemanticKeys(all), homes[j]))
  }

  lemma NothingListed(merged: map<string, Bucket>, all: set<ModelRoute>, reverse: ReverseLookups, homes: seq<string>)
    requires Merged(merged, all, reverse, SemanticKeys(all)) && forall h :: h in homes ==> h in merged
    ensures ListedUpTo([], merged, all, reverse, homes, 0)
  {
    hide HoldsHome, SemanticKeys, Homes;
  }

  /** One round: the entry of the next home. */
  method ListHome(snapshot: Snapshot, merged: map<string, Bucket>, ghost all: set<ModelRoute>,
                  ghost reverse: ReverseLookups,
                  homes: seq<string>, i: nat)
    requires i < |homes| && NoDuplicates(homes) && Separate(merged)
    requires ListedUpTo(snapshot.entries, merged, all, reverse, homes, i)
    requires snapshot.Value() == Indexed(snapshot.entries)
    modifies snapshot, merged.Values
    ensures ListedUpTo(snapshot.entries, merged, all, reverse, homes, i + 1)
    ensures snapshot.Value() == Indexed(snapshot.entries)
  {
    hide Bucket.Valid, SemanticKeys, IsEntry, HoldsHome, Indexed, AddEntry, Snapshot.Value;
    var entry := MakeEntry(merged[homes[i]], all, reverse, homes[i]);
    ghost var before := snapshot.entries;
    snapshot.Append(entry);
    IndexedSnoc(before, entry);
    SnapshotEntries(snapshot);
  }

  lemma IndexedSnoc(entries: seq<Entry>, e: Entry)
    ensures Indexed(entries + [e]) == AddEntry(Indexed(entries), e)
    ensures Indexed(entries + [e]).entries == entries + [e]
  {
    hide NormalizeModelName, ToVersionAgnosticKey;
    assert (entries + [e])[..|entries|] == entries;
    IndexedServes(entries + [e]);
  }

  lemma NothingIndexed()
    ensures Indexed([]) == EMPTY
  {
  }

  lemma SnapshotEntries(s: Snapshot)
    ensures s.Value().entries == s.entries
  {
  }

  // ---------------------------------------------------------------- what the catalog promises

  lemma FirstNameUnique(names: set<string>, a: string, b: string)
    requires FirstName(names, a) && FirstName(names, b)
    ensures a == b
  {
    TextBeforeFacts(a, b, a);
  }

  /** The entries are a function of the set of routes: neither their order nor their repetition matters. */
  lemma CatalogUnique(entries: seq<Entry>, other: seq<Entry>, routes: set<ModelRoute>, reverse: ReverseLookups)
    requires IsCatalog(entries, routes, reverse) && IsCatalog(other, routes, reverse)
    ensures entries == other
  {
    hide Gather, SemanticKey, SemanticKeys, HomeNames, InHome, FirstName, Lists, Homes, Less;
    var homes := SortedElements(Homes(routes, reverse, SemanticKeys(routes)));
    forall i | 0 <= i < |entries| ensures entries[i] == other[i] {
      SameEntry(entries[i], other[i], routes, reverse, homes[i]);
    }
  }

  lemma SameEntry(e: Entry, f: Entry, routes: set<ModelRoute>, reverse: ReverseLookups, home: string)
    requires IsEntry(e, routes, reverse, home) && IsEntry(f, routes, reverse, home)
    ensures e == f
  {
    hide Gather, SemanticKey, SemanticKeys, HomeNames, InHome, FirstName, Lists;
    var keys := SemanticKeys(routes);
    FirstNameUnique(HomeNames(routes, reverse, keys, home), e.canonicalModel, f.canonicalModel);
    ListsUnique(e.aliases, f.aliases, Gather(routes, InHome(routes, reverse, keys, home), AliasesOf(reverse)));
    ListsUnique(e.routeTargets, f.routeTargets, Gather(routes, InHome(routes, reverse, keys, home), TargetsOf()));
  }

  /** Permuting the route list changes no entry. */
  lemma CatalogIgnoresRouteOrder(routes: seq<ModelRoute>, permuted: seq<ModelRoute>, reverse: ReverseLookups,
                                 entries: seq<Entry>, other: seq<Entry>)
    requires multiset(routes) == multiset(permuted)
    requires IsCatalog(entries, Elements(routes), reverse) && IsCatalog(other, Elements(permuted), reverse)
    ensures entries == other
  {
    hide IsCatalog;
    forall r ensures r in routes <==> r in permuted {
      assert r in routes <==> r in multiset(routes);
      assert r in permuted <==> r in multiset(permuted);
    }
    assert Elements(routes) == Elements(permuted);
    CatalogUnique(entries, other, Elements(routes), reverse);
  }

  /**
   * Folded canonical names increase strictly from entry to entry, and every canonical name is trimmed and not blank.
   */
  lemma CanonicalNamesIncrease(entries: seq<Entry>, routes: set<ModelRoute>, reverse: ReverseLookups)
    requires IsCatalog(entries, routes, reverse)
    ensures forall i, j :: 0 <= i < j < |entries| ==>
              Less(ToLower(entries[i].canonicalModel), ToLower(entries[j].canonicalModel))
    ensures DistinctCanonicals(entries)
  {
    hide Gather, SemanticKey, SemanticKeys, HomeNames, InHome, FirstName, Lists, Homes, Less, ToLower;
    var homes := SortedElements(Homes(routes, reverse, SemanticKeys(routes)));
    forall i | 0 <= i < |entries|
      ensures ToLower(entries[i].canonicalModel) == homes[i]
      ensures TrimSpace(entries[i].canonicalModel) == entries[i].canonicalModel != []
    {
      CanonicalAmongAliases(routes, reverse, homes[i], entries[i].canonicalModel);
    }
    LessIsTotal();
  }

  /** The entry lists the route's name among its targets, up to case. */
  ghost predicate ListsTarget(e: Entry, r: ModelRoute) {
    exists t :: t in e.routeTargets && ToLower(t) == ToLower(RouteName(r))
  }

  /** Routes whose names differ only by case share their semantic key. */
  lemma SemanticKeyFolds(r: ModelRoute, q: ModelRoute)
    requires ToLower(RouteName(r)) == ToLower(RouteName(q))
    ensures SemanticKey(r) == SemanticKey(q)
  {
    LowerTrim(r.modelName);
    LowerTrim(q.modelName);
    NormalizeIgnoresCaseAndSpace(RouteName(r), RouteName(q));
  }

  /** Every target of an entry is the trimmed name of some enabled route. */
  lemma TargetsAreRoutes(entries: seq<Entry>, routes: set<ModelRoute>, reverse: ReverseLookups, i: nat, t: string)
    requires IsCatalog(entries, routes, reverse) && i < |entries| && t in entries[i].routeTargets
    ensures exists r :: r in routes && Named(r) && RouteName(r) == t
  {
    hide SemanticKey, SemanticKeys, HomeNames, FirstName, Homes, FoldsOf, TextBefore;
    var homes := SortedElements(Homes(routes, reverse, SemanticKeys(routes)));
    assert IsEntry(entries[i], routes, reverse, homes[i]);
    assert t in Gather(routes, InHome(routes, reverse, SemanticKeys(routes), homes[i]), TargetsOf());
  }

  lemma TargetAtHome(e: Entry, routes: set<ModelRoute>, reverse: ReverseLookups, home: string, r: ModelRoute)
    requires IsEntry(e, routes, reverse, home) && r in routes && Named(r)
    ensures SemanticKey(r) in SemanticKeys(routes)
    ensures ListsTarget(e, r) <==> Home(routes, reverse, SemanticKey(r)) == home
  {
    hide Canonical, HomeNames, FirstName, SemanticKey, SemanticKeys, Lists, ListsTarget;
    assert SemanticKey(r) in SemanticKeys(routes) by { KeyPresent(routes, r); }
    var p := InHome(routes, reverse, SemanticKeys(routes), home);
    if Home(routes, reverse, SemanticKey(r)) == home {
      assert p(r);
      TargetListed(e, routes, p, r);
    }
    if ListsTarget(e, r) {
      var q := ListedTarget(e, routes, p, r);
      SemanticKeyFolds(r, q);
    }
  }

  lemma KeyPresent(routes: set<ModelRoute>, r: ModelRoute)
    requires r in routes && Named(r)
    ensures SemanticKey(r) in SemanticKeys(routes)
  {
  }

  lemma TargetListed(e: Entry, routes: set<ModelRoute>, p: ModelRoute -> bool, r: ModelRoute)
    requires Lists(e.routeTargets, Gather(routes, p, TargetsOf())) && r in routes && p(r)
    ensures ListsTarget(e, r)
  {
    hide TextBefore;
    assert RouteName(r) in TargetsOf()(r);
    assert RouteName(r) in Gather(routes, p, TargetsOf());
    assert NameKey(RouteName(r)) in FoldsOf(Elements(e.routeTargets));
  }

  lemma ListedTarget(e: Entry, routes: set<ModelRoute>, p: ModelRoute -> bool, r: ModelRoute) returns (q: ModelRoute)
    requires Lists(e.routeTargets, Gather(routes, p, TargetsOf())) && ListsTarget(e, r)
    ensures q in routes && p(q) && ToLower(RouteName(q)) == ToLower(RouteName(r))
  {
    hide TextBefore, FoldsOf;
    var t :| t in e.routeTargets && ToLower(t) == ToLower(RouteName(r));
    assert t in Gather(routes, p, TargetsOf());
    q :| q in routes && p(q) && t in TargetsOf()(q);
  }

  /** Partition: every enabled route with a name is a target, up to case, of exactly one entry. */
  lemma RouteTargetsPartition(entries: seq<Entry>, routes: set<ModelRoute>, reverse: ReverseLookups, r: ModelRoute)
        returns (at: nat)
    requires IsCatalog(entries, routes, reverse) && r in routes && Named(r)
    ensures at < |entries|
    ensures forall i :: 0 <= i < |entries| ==> (ListsTarget(entries[i], r) <==> i == at)
  {
    hide Gather, SemanticKey, HomeNames, FirstName, IsEntry, ListsTarget, Less, Canonical;
    var keys := SemanticKeys(routes);
    var homes := SortedElements(Homes(routes, reverse, keys));
    assert SemanticKey(r) in keys;
    var home := Home(routes, reverse, SemanticKey(r));
    assert home in Homes(routes, reverse, keys);
    at :| 0 <= at < |homes| && homes[at] == home;
    LessIsTotal();
    forall i | 0 <= i < |entries| ensures ListsTarget(entries[i], r) <==> i == at {
      TargetAtHome(entries[i], routes, reverse, homes[i], r);
      if i != at {
        assert homes[i] != homes[at];
      }
    }
  }

  /** No entry is without a target. */
  lemma EntryHasTarget(entries: seq<Entry>, routes: set<ModelRoute>, reverse: ReverseLookups, i: nat)
    requires IsCatalog(entries, routes, reverse) && i < |entries|
    ensures entries[i].routeTargets != []
  {
    hide HomeNames, FirstName, TextBefore, Less, SemanticKey, Canonical;
    var keys := SemanticKeys(routes);
    var homes := SortedElements(Homes(routes, reverse, keys));
    assert homes[i] in homes;
    var k :| k in keys && Home(routes, reverse, k) == homes[i];
    var r :| r in routes && Named(r) && SemanticKey(r) == k;
    TargetAtHome(entries[i], routes, reverse, homes[i], r);
  }
}
