/**
 * Who the candidates of a request are, said in terms of names alone: what getCandidateRoutesByModelCached of
 * model/model_route_cache.go promises to whoever plans a retry.
 */
module Candidates {
  import opened Text
  import opened ModelAlias
  import opened Routes
  import opened CatalogIndex
  import opened RouteIndex
  import Alias = ProviderAlias

  /** Two names that fold alike, normalize alike, or have the same version key. */
  ghost predicate NamesMatch(a: string, b: string) {
    var x, y := TrimSpace(a), TrimSpace(b);
    var n, m := NormalizeModelName(x), NormalizeModelName(y);
    && x != [] && y != []
    && (|| ToLower(x) == ToLower(y)
        || (n != [] && m != [] && (n == m || ToVersionAgnosticKey(n) == ToVersionAgnosticKey(m) != [])))
  }

  /** The alias of the route's own provider turns the request into a name that folds or normalizes like the route's. */
  ghost predicate AliasLeadsTo(r: ModelRoute, requested: string, table: ProviderTable) {
    && r.providerId in table
    && var mapped := Alias.Resolve(Alias.ForwardLookup(table[r.providerId]), requested);
       var x := TrimSpace(r.modelName);
       && mapped.Some? && x != []
       && (|| ToLower(x) == ToLower(mapped.value)
           || NormalizeModelName(x) == NormalizeModelName(mapped.value) != [])
  }

  /** The catalog entry of the request has a target that matches the route's name. */
  ghost predicate TargetMatches(r: ModelRoute, requested: string, catalog: Catalog) {
    var entry := catalog.Resolve(requested);
    entry.Some? && exists t :: t in entry.value.routeTargets && NamesMatch(r.modelName, t)
  }

  lemma FamilyMatches(r: ModelRoute, name: string)
    ensures SameFamily(r, name) <==> NamesMatch(r.modelName, name)
  {
    hide NormalizeModelName, ToVersionAgnosticKey, TrimSpace, ToLower;
  }

  lemma AliasMatches(r: ModelRoute, requested: string, table: ProviderTable)
    ensures AliasMatch(r, requested, LookupOf(table, r.providerId)) <==> AliasLeadsTo(r, requested, table)
  {
    hide NormalizeModelName, TrimSpace, ToLower, Alias.ForwardLookup;
    if r.providerId !in table && Alias.Resolve(Alias.EMPTY_LOOKUP, requested).Some? {
      assert false;
    }
    hide Alias.Resolve;
  }

  /** The scan keeps exactly the routes that match by name, by a catalog target, or by their provider's alias. */
  lemma ScanMeaning(r: ModelRoute, requested: string, table: ProviderTable, catalog: Catalog)
    requires TrimSpace(requested) == requested != []
    ensures ScanKeeps(r, requested, table, catalog)
       <==> || NamesMatch(r.modelName, requested) || TargetMatches(r, requested, catalog)
            || AliasLeadsTo(r, requested, table)
  {
    hide NamesMatch, AliasLeadsTo, AliasMatch, SameFamily, RouteMatchesRequestedModel, Catalog.Resolve, TrimSpace,
         LookupOf, ScanKeeps;
    var entry := catalog.Resolve(requested);
    var targets := if entry.Some? then entry.value.routeTargets else [];
    FoundIsKept(r, requested, table, catalog, targets);
    FamilyMatches(r, requested);
    AliasMatches(r, requested, table);
    forall t ensures SameFamily(r, t) <==> NamesMatch(r.modelName, t) {
      FamilyMatches(r, t);
    }
  }

  /**
   * A candidate is an enabled route whose name matches the requested one or a target of its catalog entry, or which
   * its provider's alias names; and every such route is a candidate.
   */
  lemma CandidateIff(list: seq<ModelRoute>, requested: string, routes: seq<ModelRoute>, table: ProviderTable,
                     catalog: Catalog, r: ModelRoute)
    requires IsCandidateList(list, requested, routes, table, catalog)
    ensures r in list
       <==> && r in routes && TrimSpace(requested) != []
            && var q := TrimSpace(requested);
               NamesMatch(r.modelName, q) || TargetMatches(r, q, catalog) || AliasLeadsTo(r, q, table)
  {
    hide NamesMatch, TargetMatches, AliasLeadsTo, ScanKeeps;
    LowerTrim(requested);
    hide TrimSpace;
    if TrimSpace(requested) == [] {
      BlankKeepsNothing(r, table, catalog);
    } else {
      ScanMeaning(r, TrimSpace(requested), table, catalog);
    }
  }

  /** A route with the version key of the request, spelled as it may be, is never missed. */
  lemma VersionMatchIsCandidate(list: seq<ModelRoute>, requested: string, routes: seq<ModelRoute>,
                                table: ProviderTable, catalog: Catalog, r: ModelRoute)
    requires IsCandidateList(list, requested, routes, table, catalog) && r in routes
    requires TrimSpace(r.modelName) != [] && TrimSpace(requested) != []
    requires var n, m := NormalizeModelName(TrimSpace(r.modelName)), NormalizeModelName(TrimSpace(requested));
             n != [] && m != [] && multiset(VersionTokens(n)) == multiset(VersionTokens(m)) && VersionTokens(n) != []
    ensures r in list
  {
    hide NormalizeModelName, ToVersionAgnosticKey, VersionTokens, TrimSpace, ToLower, IsCandidateList, TargetMatches,
         AliasLeadsTo;
    var n, m := NormalizeModelName(TrimSpace(r.modelName)), NormalizeModelName(TrimSpace(requested));
    VersionKeyCanonical(n, m);
    BlankKeyIff(n);
    LowerTrim(requested);
    CandidateIff(list, requested, routes, table, catalog, r);
  }

  /** Candidates come by priority from high to low, and by id within a priority. */
  lemma CandidatesInOrder(list: seq<ModelRoute>, requested: string, routes: seq<ModelRoute>, table: ProviderTable,
                          catalog: Catalog, i: nat, j: nat)
    requires IsCandidateList(list, requested, routes, table, catalog) && i < j < |list|
    ensures list[i].priority >= list[j].priority
    ensures list[i].priority == list[j].priority ==> list[i].id < list[j].id
  {
    hide ScanKeeps;
    assert RouteBefore(list[i], list[j]);
  }
}
