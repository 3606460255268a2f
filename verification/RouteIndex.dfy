/**
 * model/model_route_cache.go: the static routing snapshot and the candidate look-up over its hash indexes,
 * proved equal to a linear scan with routeMatchesRequestedModel of model/model_route.go.
 */
module RouteIndex {
  import opened Text
  import opened Sorting
  import opened ModelAlias
  import opened Wrappers
  import opened Routes
  import opened CatalogIndex
  import ModelCatalog
  import Alias = ProviderAlias

  type RouteLists = map<string, seq<ModelRoute>>
  type ProviderTable = map<int, Alias.Mapping>

  datatype RoutingSnapshot = RoutingSnapshot(
    enabledRoutes: seq<ModelRoute>,
    byExact: RouteLists,
    byNormalized: RouteLists,
    byVersionKey: RouteLists,
    byProviderExact: map<int, RouteLists>,
    byProviderNormalized: map<int, RouteLists>,
    aliasLookups: map<int, Alias.Lookup>,
    catalog: Catalog)

  /** Reading a missing key of a Go map gives the empty slice. */
  function ListAt(lists: RouteLists, key: string): seq<ModelRoute> {
    if key in lists then lists[key] else []
  }

  function ProviderListAt(lists: map<int, RouteLists>, provider: int, key: string): seq<ModelRoute> {
    if provider in lists then ListAt(lists[provider], key) else []
  }

  function AppendTo(lists: RouteLists, key: string, r: ModelRoute): RouteLists {
    lists[key := ListAt(lists, key) + [r]]
  }

  function AppendToProvider(lists: map<int, RouteLists>, provider: int, key: string,
                            r: ModelRoute): map<int, RouteLists> {
    lists[provider := AppendTo(if provider in lists then lists[provider] else map[], key, r)]
  }

  // ---------------------------------------------------------------- what the indexes hold

  /** The routes whose name relates to the key, in table order. */
  function Having(routes: seq<ModelRoute>, p: (string, string) -> bool, key: string): seq<ModelRoute> {
    if routes == [] then []
    else
      var init, last := Having(routes[..|routes| - 1], p, key), routes[|routes| - 1];
      if p(last.modelName, key) then init + [last] else init
  }

  function HavingProvider(routes: seq<ModelRoute>, p: (string, string) -> bool, provider: int,
                          key: string): seq<ModelRoute> {
    if routes == [] then []
    else
      var init, last := HavingProvider(routes[..|routes| - 1], p, provider, key), routes[|routes| - 1];
      if last.providerId == provider && p(last.modelName, key) then init + [last] else init
  }

  ghost predicate Holds(lists: RouteLists, routes: seq<ModelRoute>, p: (string, string) -> bool) {
    forall key :: ListAt(lists, key) == Having(routes, p, key)
  }

  ghost predicate ProviderHolds(lists: map<int, RouteLists>, routes: seq<ModelRoute>, p: (string, string) -> bool) {
    forall provider, key :: ProviderListAt(lists, provider, key) == HavingProvider(routes, p, provider, key)
  }

  lemma {:induction false} HavingMembers(routes: seq<ModelRoute>, p: (string, string) -> bool, key: string,
                                         r: ModelRoute)
    ensures r in Having(routes, p, key) <==> r in routes && p(r.modelName, key)
  {
    if routes != [] {
      HavingMembers(routes[..|routes| - 1], p, key, r);
      assert routes == routes[..|routes| - 1] + [routes[|routes| - 1]];
    }
  }

  lemma {:induction false} HavingProviderMembers(routes: seq<ModelRoute>, p: (string, string) -> bool, provider: int,
                                                 key: string, r: ModelRoute)
    ensures r in HavingProvider(routes, p, provider, key)
       <==> r in routes && r.providerId == provider && p(r.modelName, key)
  {
    if routes != [] {
      HavingProviderMembers(routes[..|routes| - 1], p, provider, key, r);
      assert routes == routes[..|routes| - 1] + [routes[|routes| - 1]];
    }
  }

  /** One more route goes into an index under at most one key. */
  lemma HoldsNext(lists: RouteLists, routes: seq<ModelRoute>, p: (string, string) -> bool, r: ModelRoute,
                  key: Option<string>)
    requires Holds(lists, routes, p)
    requires forall k :: p(r.modelName, k) <==> key == Some(k)
    ensures Holds(if key.Some? then AppendTo(lists, key.value, r) else lists, routes + [r], p)
  {
    assert (routes + [r])[..|routes|] == routes;
    var next := if key.Some? then AppendTo(lists, key.value, r) else lists;
    forall k ensures ListAt(next, k) == Having(routes + [r], p, k) {
      assert ListAt(lists, k) == Having(routes, p, k);
    }
  }

  lemma ProviderHoldsNext(lists: map<int, RouteLists>, routes: seq<ModelRoute>, p: (string, string) -> bool,
                          r: ModelRoute, key: Option<string>)
    requires ProviderHolds(lists, routes, p)
    requires forall k :: p(r.modelName, k) <==> key == Some(k)
    ensures var next := if key.Some? then AppendToProvider(lists, r.providerId, key.value, r) else lists;
            ProviderHolds(next, routes + [r], p)
  {
    assert (routes + [r])[..|routes|] == routes;
    var next := if key.Some? then AppendToProvider(lists, r.providerId, key.value, r) else lists;
    forall provider, k
      ensures ProviderListAt(next, provider, k) == HavingProvider(routes + [r], p, provider, k)
    {
      assert ProviderListAt(lists, provider, k) == HavingProvider(routes, p, provider, k);
    }
  }

  ghost function ProviderIds(routes: seq<ModelRoute>): set<int> {
    set r | r in routes :: r.providerId
  }

  ghost function ForwardLookups(routes: seq<ModelRoute>, table: ProviderTable): map<int, Alias.Lookup> {
    map id | id in table && id in ProviderIds(routes) :: Alias.ForwardLookup(table[id])
  }

  ghost function ReverseLookups(routes: seq<ModelRoute>, table: ProviderTable): map<int, Alias.Lookup> {
    map id | id in table && id in ProviderIds(routes) :: Alias.ReverseLookup(table[id])
  }

  /** The five route indexes, the alias lookups and the catalog all describe the same rows. */
  ghost predicate IsSnapshot(s: RoutingSnapshot, routes: seq<ModelRoute>, table: ProviderTable) {
    && s.enabledRoutes == routes
    && Holds(s.byExact, routes, FoldsTo)
    && Holds(s.byNormalized, routes, NormalizesTo)
    && Holds(s.byVersionKey, routes, VersionKeyIs)
    && ProviderHolds(s.byProviderExact, routes, FoldsTo)
    && ProviderHolds(s.byProviderNormalized, routes, NormalizesTo)
    && s.aliasLookups == ForwardLookups(routes, table)
    && ModelCatalog.IsCatalog(s.catalog.entries, ModelCatalog.Elements(routes), ReverseLookups(routes, table))
    && s.catalog == Indexed(s.catalog.entries)
  }

  /** The five route indexes while the routes are being walked. */
  class IndexBuilder {
    var byExact: RouteLists
    var byNormalized: RouteLists
    var byVersionKey: RouteLists
    var byProviderExact: map<int, RouteLists>
    var byProviderNormalized: map<int, RouteLists>

    ghost predicate Describes(routes: seq<ModelRoute>)
      reads this
    {
      && Holds(byExact, routes, FoldsTo)
      && Holds(byNormalized, routes, NormalizesTo)
      && Holds(byVersionKey, routes, VersionKeyIs)
      && ProviderHolds(byProviderExact, routes, FoldsTo)
      && ProviderHolds(byProviderNormalized, routes, NormalizesTo)
    }

    constructor ()
      ensures Describes([])
    {
      byExact, byNormalized, byVersionKey := map[], map[], map[];
      byProviderExact, byProviderNormalized := map[], map[];
    }

    method Add(route: ModelRoute, ghost seen: seq<ModelRoute>)
      requires Describes(seen)
      modifies this
      ensures Describes(seen + [route])
    {
      hide NormalizeModelName, ToVersionAgnosticKey, TrimSpace, ToLower, Holds, ProviderHolds;
      var routeName := TrimSpace(route.modelName);
      var exactKey := ToLower(routeName);
      var normalizedKey := NormalizeModelName(routeName);
      var versionKey := ToVersionAgnosticKey(normalizedKey);
      ghost var exact := if routeName == [] then None else Some(exactKey);
      ghost var normal := if routeName == [] || normalizedKey == [] then None else Some(normalizedKey);
      ghost var version :=
        if routeName == [] || normalizedKey == [] || versionKey == [] then None else Some(versionKey);
      HoldsNext(byExact, seen, FoldsTo, route, exact);
      HoldsNext(byNormalized, seen, NormalizesTo, route, normal);
      HoldsNext(byVersionKey, seen, VersionKeyIs, route, version);
      ProviderHoldsNext(byProviderExact, seen, FoldsTo, route, exact);
      ProviderHoldsNext(byProviderNormalized, seen, NormalizesTo, route, normal);
      if routeName == [] {
        return;
      }
      byExact := AppendTo(byExact, exactKey, route);
      if normalizedKey != [] {
        byNormalized := AppendTo(byNormalized, normalizedKey, route);
        if versionKey != [] {
          byVersionKey := AppendTo(byVersionKey, versionKey, route);
        }
      }
      byProviderExact := AppendToProvider(byProviderExact, route.providerId, exactKey, route);
      if normalizedKey != [] {
        byProviderNormalized := AppendToProvider(byProviderNormalized, route.providerId, normalizedKey, route);
      }
    }
  }

  method CollectProviders(routes: seq<ModelRoute>) returns (providerSet: set<int>)
    ensures providerSet == ProviderIds(routes)
  {
    providerSet := {};
    for i := 0 to |routes|
      invariant providerSet == ProviderIds(routes[..i])
    {
      assert routes[..i + 1] == routes[..i] + [routes[i]];
      providerSet := providerSet + {routes[i].providerId};
    }
    assert routes[..|routes|] == routes;
  }

  /** One alias lookup of either direction per provider that has an enabled route and a row in the table. */
  method BuildAliasLookups(routes: seq<ModelRoute>, table: ProviderTable)
      returns (forward: map<int, Alias.Lookup>, reverse: map<int, Alias.Lookup>)
    ensures forward == ForwardLookups(routes, table) && reverse == ReverseLookups(routes, table)
  {
    var providerSet := CollectProviders(routes);
    var rows := AnyOrder(set id | id in table && id in providerSet);
    forward, reverse := map[], map[];
    NoLookups(table);
    hide ForwardFor, ReverseFor;
    for i := 0 to |rows|
      invariant forward == ForwardFor(table, rows[..i]) && reverse == ReverseFor(table, rows[..i])
    {
      assert rows[..i + 1] == rows[..i] + [rows[i]] && rows[i] in rows;
      OneMoreLookup(table, rows[..i], rows[i]);
      var f := Alias.BuildLookup(table[rows[i]]);
      var r := Alias.BuildReverseLookup(table[rows[i]]);
      forward, reverse := forward[rows[i] := f], reverse[rows[i] := r];
    }
    assert rows[..|rows|] == rows;
    AllLookups(routes, table, rows);
  }

  /** The look-ups of these providers. */
  ghost function ForwardFor(table: ProviderTable, ids: seq<int>): map<int, Alias.Lookup> {
    map id | id in ids && id in table :: Alias.ForwardLookup(table[id])
  }

  ghost function ReverseFor(table: ProviderTable, ids: seq<int>): map<int, Alias.Lookup> {
    map id | id in ids && id in table :: Alias.ReverseLookup(table[id])
  }

  lemma NoLookups(table: ProviderTable)
    ensures ForwardFor(table, []) == map[] && ReverseFor(table, []) == map[]
  {
  }

  lemma OneMoreLookup(table: ProviderTable, ids: seq<int>, id: int)
    requires id in table
    ensures ForwardFor(table, ids + [id]) == ForwardFor(table, ids)[id := Alias.ForwardLookup(table[id])]
    ensures ReverseFor(table, ids + [id]) == ReverseFor(table, ids)[id := Alias.ReverseLookup(table[id])]
  {
    hide Alias.ForwardLookup, Alias.ReverseLookup;
  }

  lemma AllLookups(routes: seq<ModelRoute>, table: ProviderTable, ids: seq<int>)
    requires forall id :: id in ids <==> id in table && id in ProviderIds(routes)
    ensures ForwardFor(table, ids) == ForwardLookups(routes, table)
    ensures ReverseFor(table, ids) == ReverseLookups(routes, table)
  {
    hide Alias.ForwardLookup, Alias.ReverseLookup;
    forall id ensures id in ForwardFor(table, ids) <==> id in ForwardLookups(routes, table) {
    }
    forall id ensures id in ReverseFor(table, ids) <==> id in ReverseLookups(routes, table) {
    }
  }

  method BuildRoutingStaticSnapshot(routes: seq<ModelRoute>, table: ProviderTable) returns (s: RoutingSnapshot)
    ensures IsSnapshot(s, routes, table)
  {
    hide Holds, ProviderHolds, ModelCatalog.IsCatalog, Indexed;
    var forward, reverse := BuildAliasLookups(routes, table);
    var builder := new IndexBuilder();
    for i := 0 to |routes|
      invariant builder.Describes(routes[..i])
    {
      assert routes[..i + 1] == routes[..i] + [routes[i]];
      builder.Add(routes[i], routes[..i]);
    }
    assert routes[..|routes|] == routes;
    var catalog := ModelCatalog.BuildModelCatalogSnapshot(routes, reverse);
    s := RoutingSnapshot(routes, builder.byExact, builder.byNormalized, builder.byVersionKey,
                         builder.byProviderExact, builder.byProviderNormalized, forward, catalog.Value());
    ModelCatalog.SnapshotEntries(catalog);
  }

  // ---------------------------------------------------------------- the slow scan

  /** The per-route matcher, as the source writes it. */
  predicate RouteMatchesRequestedModel(routeModelName: string, requestedModel: string, requestedNormalized: string,
                                       requestedVersionKey: string, lookup: Alias.Lookup) {
    var routeName := TrimSpace(routeModelName);
    if routeName == [] then false
    else if EqualFold(routeName, requestedModel) then true
    else
      var routeNormalized := NormalizeModelName(routeName);
      if requestedNormalized != [] && routeNormalized != [] && routeNormalized == requestedNormalized then true
      else if requestedVersionKey != [] && routeNormalized != []
              && ToVersionAgnosticKey(routeNormalized) == requestedVersionKey then true
      else
        var mapped := Alias.Resolve(lookup, requestedModel);
        && mapped.Some?
        && (EqualFold(routeName, mapped.value)
            || (NormalizeModelName(mapped.value) != [] && routeNormalized != []
                && NormalizeModelName(mapped.value) == routeNormalized))
  }

  /** The alias look-up of a provider; a provider without a row resolves nothing. */
  ghost function LookupOf(table: ProviderTable, provider: int): Alias.Lookup {
    if provider in table then Alias.ForwardLookup(table[provider]) else Alias.EMPTY_LOOKUP
  }

  /**
   * The linear scan keeps a route for its own name, for its provider's alias, or for a target of the resolved entry.
   */
  ghost predicate ScanKeeps(r: ModelRoute, requested: string, table: ProviderTable, catalog: Catalog) {
    var normalized := NormalizeModelName(requested);
    || RouteMatchesRequestedModel(r.modelName, requested, normalized, ToVersionAgnosticKey(normalized),
                                  LookupOf(table, r.providerId))
    || exists target :: TargetOf(catalog, requested, target) && SameFamily(r, target)
  }

  ghost predicate TargetOf(catalog: Catalog, requested: string, target: string) {
    var entry := catalog.Resolve(requested);
    entry.Some? && target in entry.value.routeTargets
  }

  /** An exact, normalized or version match of a name. */
  predicate SameFamily(r: ModelRoute, name: string) {
    var trimmed := TrimSpace(name);
    var normalized := NormalizeModelName(trimmed);
    && trimmed != []
    && (FoldsTo(r.modelName, ToLower(trimmed))
        || NormalizesTo(r.modelName, normalized)
        || (normalized != [] && VersionKeyIs(r.modelName, ToVersionAgnosticKey(normalized))))
  }

  /** A match through the provider's alias. */
  ghost predicate AliasMatch(r: ModelRoute, requested: string, lookup: Alias.Lookup) {
    var mapped := Alias.Resolve(lookup, requested);
    && mapped.Some?
    && (FoldsTo(r.modelName, ToLower(mapped.value)) || NormalizesTo(r.modelName, NormalizeModelName(mapped.value)))
  }

  lemma MatcherMeaning(r: ModelRoute, requested: string, lookup: Alias.Lookup)
    requires TrimSpace(requested) == requested != []
    ensures RouteMatchesRequestedModel(r.modelName, requested, NormalizeModelName(requested),
                                       ToVersionAgnosticKey(NormalizeModelName(requested)), lookup)
       <==> SameFamily(r, requested) || AliasMatch(r, requested, lookup)
  {
    BlankHasNoKey();
    hide NormalizeModelName, ToVersionAgnosticKey, TrimSpace, ToLower, Alias.Resolve;
  }

  // ---------------------------------------------------------------- the candidate look-up

  /** Priority descending, then id ascending. */
  predicate RouteBefore(a: ModelRoute, b: ModelRoute) {
    if a.priority == b.priority then a.id < b.id else a.priority > b.priority
  }

  /** Ids are the table's primary key. */
  ghost predicate UniqueIds(routes: seq<ModelRoute>) {
    forall r, q :: r in routes && q in routes && r.id == q.id ==> r == q
  }

  /** The candidate map, keyed by id, holds exactly the routes found. */
  ghost predicate Collects(m: map<int, ModelRoute>, routes: seq<ModelRoute>, found: set<ModelRoute>) {
    && (forall id :: id in m ==> m[id].id == id && m[id] in found)
    && (forall r :: r in found ==> r in routes && r.id in m && m[r.id] == r)
  }

  method AppendCandidates(m: map<int, ModelRoute>, list: seq<ModelRoute>, ghost routes: seq<ModelRoute>,
                          ghost found: set<ModelRoute>)
      returns (next: map<int, ModelRoute>)
    requires UniqueIds(routes) && Collects(m, routes, found)
    requires forall r :: r in list ==> r in routes
    ensures Collects(next, routes, found + (set r | r in list))
  {
    next := m;
    for i := 0 to |list|
      invariant Collects(next, routes, found + (set r | r in list[..i]))
    {
      assert list[..i + 1] == list[..i] + [list[i]];
      next := next[list[i].id := list[i]];
    }
    assert list[..|list|] == list;
  }

  /** What a look-up by name adds: the three unscoped indexes at the name's three keys. */
  method AppendFamily(m: map<int, ModelRoute>, name: string, s: RoutingSnapshot,
                      ghost routes: seq<ModelRoute>, ghost table: ProviderTable, ghost found: set<ModelRoute>)
      returns (next: map<int, ModelRoute>)
    requires IsSnapshot(s, routes, table) && UniqueIds(routes) && Collects(m, routes, found)
    ensures Collects(next, routes, found + (set r | r in routes && SameFamily(r, name)))
  {
    hide NormalizeModelName, ToVersionAgnosticKey, TrimSpace, ToLower, Collects, Having, ListAt, UniqueIds;
    var trimmed := TrimSpace(name);
    if trimmed == [] {
      assert (set r | r in routes && SameFamily(r, name)) == {};
      assert found + {} == found;
      return m;
    }
    var exact := ListAt(s.byExact, ToLower(trimmed));
    Found(routes, FoldsTo, ToLower(trimmed));
    next := AppendCandidates(m, exact, routes, found);
    var normalized := NormalizeModelName(trimmed);
    var versionKey := ToVersionAgnosticKey(normalized);
    ghost var soFar := found + (set r | r in exact);
    Found(routes, NormalizesTo, normalized);
    Found(routes, VersionKeyIs, versionKey);
    if normalized != [] {
      var normal := ListAt(s.byNormalized, normalized);
      next := AppendCandidates(next, normal, routes, soFar);
      soFar := soFar + (set r | r in normal);
      if versionKey != [] {
        var version := ListAt(s.byVersionKey, versionKey);
        next := AppendCandidates(next, version, routes, soFar);
        soFar := soFar + (set r | r in version);
      }
    }
    assert soFar == found + (set r | r in routes && SameFamily(r, name));
  }

  lemma Found(routes: seq<ModelRoute>, p: (string, string) -> bool, key: string)
    ensures forall r :: r in Having(routes, p, key) <==> r in routes && p(r.modelName, key)
  {
    forall r ensures r in Having(routes, p, key) <==> r in routes && p(r.modelName, key) {
      HavingMembers(routes, p, key, r);
    }
  }

  lemma FoundProvider(routes: seq<ModelRoute>, p: (string, string) -> bool, provider: int, key: string)
    ensures forall r :: r in HavingProvider(routes, p, provider, key)
                   <==> r in routes && r.providerId == provider && p(r.modelName, key)
  {
    forall r
      ensures r in HavingProvider(routes, p, provider, key)
         <==> r in routes && r.providerId == provider && p(r.modelName, key)
    {
      HavingProviderMembers(routes, p, provider, key, r);
    }
  }

  /** What one provider's alias adds: that provider's own two indexes at the mapped name's keys. */
  method AppendAliased(m: map<int, ModelRoute>, requested: string, provider: int, s: RoutingSnapshot,
                       ghost routes: seq<ModelRoute>, ghost table: ProviderTable, ghost found: set<ModelRoute>)
      returns (next: map<int, ModelRoute>)
    requires IsSnapshot(s, routes, table) && UniqueIds(routes) && Collects(m, routes, found)
    requires provider in s.aliasLookups
    ensures var lookup := LookupOf(table, provider);
            var aliased := set r | r in routes && r.providerId == provider && AliasMatch(r, requested, lookup);
            Collects(next, routes, found + aliased)
  {
    hide NormalizeModelName, ToLower, Collects, HavingProvider, ProviderListAt, UniqueIds, Alias.Resolve, TrimSpace,
         Alias.ForwardLookup;
    var lookup := s.aliasLookups[provider];
    assert lookup == LookupOf(table, provider);
    var mapped := Alias.Resolve(lookup, requested);
    ghost var aliased := set r | r in routes && r.providerId == provider && AliasMatch(r, requested, lookup);
    if mapped.None? {
      assert aliased == {};
      assert found + {} == found;
      return m;
    }
    var mappedModel := TrimSpace(mapped.value);
    assert mappedModel == mapped.value by { TrimSpaceTrimmed(mapped.value); }
    var exact := ProviderListAt(s.byProviderExact, provider, ToLower(mappedModel));
    FoundProvider(routes, FoldsTo, provider, ToLower(mappedModel));
    next := AppendCandidates(m, exact, routes, found);
    ghost var soFar := found + (set r | r in exact);
    var normalized := NormalizeModelName(mappedModel);
    FoundProvider(routes, NormalizesTo, provider, normalized);
    if normalized != [] {
      var normal := ProviderListAt(s.byProviderNormalized, provider, normalized);
      next := AppendCandidates(next, normal, routes, soFar);
      soFar := soFar + (set r | r in normal);
    }
    assert soFar == found + aliased;
  }

  /** The routes that match through a target of the resolved catalog entry. */
  ghost function TargetRoutes(routes: seq<ModelRoute>, targets: seq<string>): set<ModelRoute> {
    set r, t | r in routes && t in targets && SameFamily(r, t) :: r
  }

  method AppendTargets(m: map<int, ModelRoute>, targets: seq<string>, s: RoutingSnapshot,
                       ghost routes: seq<ModelRoute>, ghost table: ProviderTable, ghost found: set<ModelRoute>)
      returns (next: map<int, ModelRoute>)
    requires IsSnapshot(s, routes, table) && UniqueIds(routes) && Collects(m, routes, found)
    ensures Collects(next, routes, found + TargetRoutes(routes, targets))
  {
    hide IsSnapshot, UniqueIds, Collects, SameFamily;
    next := m;
    assert found + TargetRoutes(routes, []) == found;
    for i := 0 to |targets|
      invariant Collects(next, routes, found + TargetRoutes(routes, targets[..i]))
    {
      assert targets[..i + 1] == targets[..i] + [targets[i]];
      ghost var soFar := found + TargetRoutes(routes, targets[..i]);
      next := AppendFamily(next, targets[i], s, routes, table, soFar);
      assert soFar + (set r | r in routes && SameFamily(r, targets[i]))
          == found + TargetRoutes(routes, targets[..i + 1]);
    }
    assert targets[..|targets|] == targets;
  }

  /** The routes that match through their own provider's alias, for the given providers. */
  ghost function AliasRoutes(routes: seq<ModelRoute>, requested: string, table: ProviderTable,
                             providers: seq<int>): set<ModelRoute> {
    set r | r in routes && r.providerId in providers && AliasMatch(r, requested, LookupOf(table, r.providerId))
  }

  method AppendAliases(m: map<int, ModelRoute>, requested: string, s: RoutingSnapshot,
                       ghost routes: seq<ModelRoute>, ghost table: ProviderTable, ghost found: set<ModelRoute>)
      returns (next: map<int, ModelRoute>)
    requires IsSnapshot(s, routes, table) && UniqueIds(routes) && Collects(m, routes, found)
    ensures Collects(next, routes,
                     found + set r | r in routes && AliasMatch(r, requested, LookupOf(table, r.providerId)))
  {
    hide UniqueIds, Collects, AliasMatch, Holds, ProviderHolds, ModelCatalog.IsCatalog, LookupOf;
    var providers := AnyOrder(s.aliasLookups.Keys);
    next := m;
    assert found + AliasRoutes(routes, requested, table, []) == found;
    for i := 0 to |providers|
      invariant Collects(next, routes, found + AliasRoutes(routes, requested, table, providers[..i]))
    {
      assert providers[i] in providers;
      OneMoreProvider(routes, requested, table, providers[..i], providers[i], found);
      assert providers[..i + 1] == providers[..i] + [providers[i]];
      ghost var soFar := found + AliasRoutes(routes, requested, table, providers[..i]);
      var provider := providers[i];
      next := AppendAliased(next, requested, provider, s, routes, table, soFar);
    }
    assert providers[..|providers|] == providers;
    forall r | r in routes && AliasMatch(r, requested, LookupOf(table, r.providerId))
      ensures r.providerId in providers
    {
      NoRowNoAlias(r, requested, table);
      assert r.providerId in ProviderIds(routes);
    }
    assert AliasRoutes(routes, requested, table, providers)
        == set r | r in routes && AliasMatch(r, requested, LookupOf(table, r.providerId));
  }

  lemma OneMoreProvider(routes: seq<ModelRoute>, requested: string, table: ProviderTable, providers: seq<int>,
                        provider: int, found: set<ModelRoute>)
    ensures found + AliasRoutes(routes, requested, table, providers)
            + (set r | r in routes && r.providerId == provider && AliasMatch(r, requested, LookupOf(table, provider)))
         == found + AliasRoutes(routes, requested, table, providers + [provider])
  {
    hide AliasMatch, LookupOf;
  }

  lemma NoRowNoAlias(r: ModelRoute, requested: string, table: ProviderTable)
    requires AliasMatch(r, requested, LookupOf(table, r.providerId))
    ensures r.providerId in table
  {
  }

  /** What a candidate list must be: the kept routes, each once, in candidate order. */
  ghost predicate IsCandidateList(list: seq<ModelRoute>, requested: string, routes: seq<ModelRoute>,
                                  table: ProviderTable, catalog: Catalog) {
    && StrictlySorted(RouteBefore, list)
    && forall r :: r in list <==> r in routes && ScanKeeps(r, TrimSpace(requested), table, catalog)
  }

  lemma RouteBeforeIsOrder()
    ensures StrictOrder(RouteBefore)
  {
  }

  /** The collected map, sorted, whatever order its entries are walked in. */
  method SortCandidates(m: map<int, ModelRoute>, ghost routes: seq<ModelRoute>, ghost found: set<ModelRoute>)
      returns (list: seq<ModelRoute>)
    requires Collects(m, routes, found)
    ensures StrictlySorted(RouteBefore, list) && forall r :: r in list <==> r in found
  {
    var ids := AnyOrder(m.Keys);
    var items: seq<ModelRoute> := [];
    for i := 0 to |ids|
      invariant |items| == i && forall j :: 0 <= j < i ==> items[j] == m[ids[j]]
    {
      assert ids[i] in ids;
      items := items + [m[ids[i]]];
    }
    assert forall j :: 0 <= j < |ids| ==> ids[j] in ids;
    ItemsDiffer(m, routes, found, ids, items);
    ItemsFound(m, routes, found, ids, items);
    hide Collects;
    RouteBeforeIsOrder();
    list := SortSlice(RouteBefore, items);
    SameElements(items, list);
    SortedDistinct(RouteBefore, list);
  }

  lemma ItemsDiffer(m: map<int, ModelRoute>, routes: seq<ModelRoute>, found: set<ModelRoute>, ids: seq<int>,
                    items: seq<ModelRoute>)
    requires Collects(m, routes, found) && NoDuplicates(ids) && forall id :: id in ids <==> id in m
    requires |items| == |ids| && forall j :: 0 <= j < |items| ==> ids[j] in m && items[j] == m[ids[j]]
    ensures NoDuplicates(items)
    ensures forall a, b :: a in items && b in items && a != b ==> RouteBefore(a, b) || RouteBefore(b, a)
  {
    assert forall j :: 0 <= j < |ids| ==> items[j].id == ids[j];
    forall a, b | a in items && b in items && a != b ensures RouteBefore(a, b) || RouteBefore(b, a) {
      assert m[a.id] == a && m[b.id] == b;
    }
  }

  lemma ItemsFound(m: map<int, ModelRoute>, routes: seq<ModelRoute>, found: set<ModelRoute>, ids: seq<int>,
                   items: seq<ModelRoute>)
    requires Collects(m, routes, found) && forall id :: id in ids <==> id in m
    requires |items| == |ids| && forall j :: 0 <= j < |items| ==> ids[j] in m && items[j] == m[ids[j]]
    ensures forall r :: r in items <==> r in found
  {
    forall r | r in found ensures r in items {
      assert m[r.id] == r && r.id in ids;
      var j :| 0 <= j < |ids| && ids[j] == r.id;
      assert items[j] == r;
    }
    forall r | r in items ensures r in found {
      var j :| 0 <= j < |items| && items[j] == r;
      var id := ids[j];
      assert id in m;
      assert m[id].id == id;
      assert m[id] in found;
    }
  }

  lemma FoundIsKept(r: ModelRoute, requested: string, table: ProviderTable, catalog: Catalog, targets: seq<string>)
    requires TrimSpace(requested) == requested != []
    requires targets == if catalog.Resolve(requested).Some? then catalog.Resolve(requested).value.routeTargets else []
    ensures ScanKeeps(r, requested, table, catalog)
       <==> || SameFamily(r, requested)
            || (exists t :: t in targets && SameFamily(r, t))
            || AliasMatch(r, requested, LookupOf(table, r.providerId))
  {
    hide SameFamily, AliasMatch, RouteMatchesRequestedModel, Catalog.Resolve, NormalizeModelName;
    MatcherMeaning(r, requested, LookupOf(table, r.providerId));
    if exists t :: t in targets && SameFamily(r, t) {
      var t :| t in targets && SameFamily(r, t);
      assert TargetOf(catalog, requested, t);
    }
  }

  lemma BlankKeepsNothing(r: ModelRoute, table: ProviderTable, catalog: Catalog)
    ensures !ScanKeeps(r, [], table, catalog)
  {
    assert TrimSpace([]) == [] && ToLower([]) == [] && NormalizeModelName([]) == [];
    BlankHasNoKey();
    assert Alias.Resolve(LookupOf(table, r.providerId), []) == None;
    assert catalog.Resolve([]) == None;
    hide TrimSpace, NormalizeModelName, ToVersionAgnosticKey, Alias.Resolve, Catalog.Resolve, LookupOf;
    if TrimSpace(r.modelName) != [] {
      assert |ToLower(TrimSpace(r.modelName))| > 0;
    }
  }

  /** The index-based look-up returns exactly what the linear scan keeps. */
  method GetCandidateRoutesByModel(requestedModel: string, s: RoutingSnapshot, ghost routes: seq<ModelRoute>,
                                   ghost table: ProviderTable)
      returns (candidates: seq<ModelRoute>)
    requires IsSnapshot(s, routes, table) && UniqueIds(routes)
    ensures IsCandidateList(candidates, requestedModel, routes, table, s.catalog)
  {
    hide IsSnapshot, UniqueIds, ScanKeeps, AliasMatch, SameFamily, Catalog.Resolve, LookupOf;
    if |s.enabledRoutes| == 0 {
      assert s.enabledRoutes == routes by { SnapshotRoutes(s, routes, table); }
      return [];
    }
    var requested := TrimSpace(requestedModel);
    if requested == [] {
      forall r ensures !ScanKeeps(r, [], table, s.catalog) {
        BlankKeepsNothing(r, table, s.catalog);
      }
      return [];
    }
    LowerTrim(requestedModel);
    var collected: map<int, ModelRoute> := map[];
    ghost var own := set r | r in routes && SameFamily(r, requested);
    collected := AppendFamily(collected, requested, s, routes, table, {});
    assert {} + own == own;
    var entry := s.catalog.Resolve(requested);
    var targets := if entry.Some? then entry.value.routeTargets else [];
    collected := AppendTargets(collected, targets, s, routes, table, own);
    ghost var soFar := own + TargetRoutes(routes, targets);
    collected := AppendAliases(collected, requested, s, routes, table, soFar);
    ghost var all := soFar + set r | r in routes && AliasMatch(r, requested, LookupOf(table, r.providerId));
    candidates := SortCandidates(collected, routes, all);
    forall r ensures r in all <==> r in routes && ScanKeeps(r, requested, table, s.catalog) {
      FoundIsKept(r, requested, table, s.catalog, targets);
      assert r in TargetRoutes(routes, targets) <==> r in routes && exists t :: t in targets && SameFamily(r, t);
    }
  }

  lemma SnapshotRoutes(s: RoutingSnapshot, routes: seq<ModelRoute>, table: ProviderTable)
    requires IsSnapshot(s, routes, table)
    ensures s.enabledRoutes == routes
    ensures ModelCatalog.IsCatalog(s.catalog.entries, ModelCatalog.Elements(routes), ReverseLookups(routes, table))
    ensures s.catalog == Indexed(s.catalog.entries)
  {
  }

  /** There is only one such list, so no walk over a map can show in the result. */
  lemma CandidateListUnique(a: seq<ModelRoute>, b: seq<ModelRoute>, requested: string, routes: seq<ModelRoute>,
                            table: ProviderTable, catalog: Catalog)
    requires IsCandidateList(a, requested, routes, table, catalog)
    requires IsCandidateList(b, requested, routes, table, catalog)
    ensures a == b
  {
    hide ScanKeeps;
    RouteBeforeIsOrder();
    StrictlySortedUnique(RouteBefore, a, b);
  }

  /** Whatever order the rows of the table come in, the snapshot answers with the same candidates. */
  lemma CandidatesIgnoreTableOrder(requested: string, s: RoutingSnapshot, t: RoutingSnapshot, routes: seq<ModelRoute>,
                                   permuted: seq<ModelRoute>, table: ProviderTable,
                                   a: seq<ModelRoute>, b: seq<ModelRoute>)
    requires multiset(routes) == multiset(permuted)
    requires IsSnapshot(s, routes, table) && IsSnapshot(t, permuted, table)
    requires IsCandidateList(a, requested, routes, table, s.catalog)
    requires IsCandidateList(b, requested, permuted, table, t.catalog)
    ensures a == b
  {
    hide ScanKeeps, IsSnapshot, ModelCatalog.IsCatalog;
    SnapshotRoutes(s, routes, table);
    SnapshotRoutes(t, permuted, table);
    SameElements(routes, permuted);
    assert ProviderIds(routes) == ProviderIds(permuted);
    ModelCatalog.CatalogIgnoresRouteOrder(
      routes, permuted, ReverseLookups(routes, table), s.catalog.entries, t.catalog.entries);
    CandidateListUnique(a, b, requested, routes, table, s.catalog);
  }

  /**
   * Every listed model is routable: the candidates of an entry's canonical name hold every enabled route
   * that the entry names as a target, and there is at least one.
   */
  lemma ListedModelsAreRoutable(s: RoutingSnapshot, routes: seq<ModelRoute>, table: ProviderTable, i: nat,
                                candidates: seq<ModelRoute>)
    requires IsSnapshot(s, routes, table) && i < |s.catalog.entries|
    requires IsCandidateList(candidates, s.catalog.entries[i].canonicalModel, routes, table, s.catalog)
    ensures forall r :: r in routes && Named(r) && ModelCatalog.ListsTarget(s.catalog.entries[i], r) ==> r in candidates
    ensures candidates != []
  {
    hide IsSnapshot, ModelCatalog.IsCatalog, ScanKeeps, ModelCatalog.ListsTarget, Catalog.Resolve;
    var reverse := ReverseLookups(routes, table);
    var all := ModelCatalog.Elements(routes);
    var entry := s.catalog.entries[i];
    SnapshotRoutes(s, routes, table);
    ModelCatalog.CanonicalNamesIncrease(s.catalog.entries, all, reverse);
    ResolveCanonical(s.catalog.entries, i);
    forall r | r in routes && Named(r) && ModelCatalog.ListsTarget(entry, r) ensures r in candidates {
      TargetKept(r, s.catalog, i, table);
    }
    ModelCatalog.EntryHasTarget(s.catalog.entries, all, reverse, i);
    var t := entry.routeTargets[0];
    ModelCatalog.TargetsAreRoutes(s.catalog.entries, all, reverse, i, t);
    var r :| r in all && ModelCatalog.Named(r) && ModelCatalog.RouteName(r) == t;
    NamedTargetListed(entry, r, t);
  }

  lemma NamedTargetListed(entry: Entry, r: ModelRoute, t: string)
    requires t in entry.routeTargets && ModelCatalog.RouteName(r) == t
    ensures ModelCatalog.ListsTarget(entry, r)
  {
  }

  predicate Named(r: ModelRoute) {
    ModelCatalog.Named(r)
  }

  lemma TargetKept(r: ModelRoute, catalog: Catalog, i: nat, table: ProviderTable)
    requires i < |catalog.entries| && catalog.Resolve(catalog.entries[i].canonicalModel) == Some(catalog.entries[i])
    requires TrimSpace(catalog.entries[i].canonicalModel) == catalog.entries[i].canonicalModel
    requires Named(r) && ModelCatalog.ListsTarget(catalog.entries[i], r)
    ensures ScanKeeps(r, TrimSpace(catalog.entries[i].canonicalModel), table, catalog)
  {
    hide Catalog.Resolve, RouteMatchesRequestedModel, NormalizeModelName, ToVersionAgnosticKey;
    var entry := catalog.entries[i];
    var t :| t in entry.routeTargets && ToLower(t) == ToLower(ModelCatalog.RouteName(r));
    assert TargetOf(catalog, entry.canonicalModel, t);
    LowerTrim(t);
    LowerTrim(r.modelName);
    LowerTrim(ModelCatalog.RouteName(r));
    assert ToLower(TrimSpace(t)) == ToLower(TrimSpace(r.modelName));
    assert TrimSpace(t) != [] by {
      assert |ToLower(TrimSpace(t))| == |ToLower(TrimSpace(r.modelName))|;
    }
    assert SameFamily(r, t);
  }
}
