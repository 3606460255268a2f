/**
 * model/model_catalog.go, read from outside: which routes the catalog lists together, and under which name, said in
 * terms of the routes' own names and their providers' aliases.
 */
module CatalogNames {
  import opened Text
  import opened Sorting
  import opened ModelAlias
  import opened Wrappers
  import opened Routes
  import opened CatalogIndex
  import opened ModelCatalog
  import Alias = ProviderAlias

  /** Two names that normalize alike; a name without a normal form stands with its folded self instead. */
  ghost predicate Alike(a: string, b: string) {
    var x, y := TrimSpace(a), TrimSpace(b);
    var n, m := NormalizeModelName(x), NormalizeModelName(y);
    if n != [] && m != [] then n == m
    else if n == [] && m == [] then ToLower(x) == ToLower(y)
    else if n == [] then ToLower(x) == m
    else n == ToLower(y)
  }

  /** The named enabled routes alike to `r`. */
  ghost function Family(routes: set<ModelRoute>, r: ModelRoute): set<ModelRoute> {
    set q | q in routes && TrimSpace(q.modelName) != [] && Alike(q.modelName, r.modelName)
  }

  /** The alias source that `q`'s provider declares for it. */
  ghost predicate HasSource(q: ModelRoute, reverse: ReverseLookups, source: string) {
    q.providerId in reverse && Alias.Resolve(reverse[q.providerId], TrimSpace(q.modelName)) == Some(source)
  }

  ghost function Sources(family: set<ModelRoute>, reverse: ReverseLookups): set<string> {
    set q | q in family && q.providerId in reverse
            && Alias.Resolve(reverse[q.providerId], TrimSpace(q.modelName)).Some?
          :: Alias.Resolve(reverse[q.providerId], TrimSpace(q.modelName)).value
  }

  ghost function NormalForms(family: set<ModelRoute>): set<string> {
    set q | q in family && NormalizeModelName(TrimSpace(q.modelName)) != []
          :: NormalizeModelName(TrimSpace(q.modelName))
  }

  ghost function RawNames(family: set<ModelRoute>): set<string> {
    set q | q in family :: TrimSpace(q.modelName)
  }

  /** The name of a route's model: the first alias source of its family, else the normal form, else the first name. */
  ghost predicate NamedBy(routes: set<ModelRoute>, reverse: ReverseLookups, r: ModelRoute, name: string) {
    var family := Family(routes, r);
    if Sources(family, reverse) != {} then FirstName(Sources(family, reverse), name)
    else if NormalForms(family) != {} then NormalForms(family) == {name}
    else FirstName(RawNames(family), name)
  }

  lemma AlikeMeaning(r: ModelRoute, q: ModelRoute)
    ensures SemanticKey(r) == SemanticKey(q) <==> Alike(r.modelName, q.modelName)
  {
    hide NormalizeModelName, TrimSpace, ToLower;
  }

  lemma FamilyIsBucket(routes: set<ModelRoute>, r: ModelRoute)
    ensures Family(routes, r) == set q | q in routes && InBucket(SemanticKey(r))(q)
  {
    forall q ensures SemanticKey(q) == SemanticKey(r) <==> Alike(q.modelName, r.modelName) {
      AlikeMeaning(q, r);
    }
    hide SemanticKey, Alike, TrimSpace;
  }

  /** What the candidates of a bucket are, rank by rank. */
  lemma CandidateRanks(routes: set<ModelRoute>, reverse: ReverseLookups, r: ModelRoute, c: Candidate)
    ensures var family := Family(routes, r);
            c in Gather(routes, InBucket(SemanticKey(r)), CandidatesOf(reverse))
            <==> || (c.rank == 1 && c.name in Sources(family, reverse))
                 || (c.rank == 2 && c.name in NormalForms(family))
                 || (c.rank == 3 && c.name in RawNames(family))
  {
    FamilyIsBucket(routes, r);
    hide NormalizeModelName, Alias.Resolve, SemanticKey, TrimSpace, Family;
    var family := Family(routes, r);
    var items := Gather(routes, InBucket(SemanticKey(r)), CandidatesOf(reverse));
    if c in items {
      var q :| q in routes && InBucket(SemanticKey(r))(q) && c in CandidatesOf(reverse)(q);
      assert q in family;
    }
    if c.rank == 1 && c.name in Sources(family, reverse) {
      var q :| q in family && AliasSource(q, reverse) == Some(c.name);
      assert c in CandidatesOf(reverse)(q);
    }
    if c.rank == 2 && c.name in NormalForms(family) {
      var q :| q in family && NormalizeModelName(RouteName(q)) == c.name != [];
      assert c in CandidatesOf(reverse)(q);
    }
    if c.rank == 3 && c.name in RawNames(family) {
      var q :| q in family && RouteName(q) == c.name;
      assert c in CandidatesOf(reverse)(q);
    }
  }

  /** A family has one normal form at most. */
  lemma OneNormalForm(routes: set<ModelRoute>, r: ModelRoute, a: string, b: string)
    requires a in NormalForms(Family(routes, r)) && b in NormalForms(Family(routes, r))
    ensures a == b
  {
    hide NormalizeModelName, TrimSpace, ToLower;
  }

  /** The least of ranked names lies in the first rank that has any. */
  lemma LeastByRank(items: set<Candidate>, ones: set<string>, twos: set<string>, threes: set<string>, c: Candidate)
    requires forall d :: d in items <==> || (d.rank == 1 && d.name in ones) || (d.rank == 2 && d.name in twos)
                                         || (d.rank == 3 && d.name in threes)
    requires IsLeast(items, c)
    ensures if ones != {} then FirstName(ones, c.name)
            else if twos != {} then FirstName(twos, c.name)
            else FirstName(threes, c.name)
  {
    hide TextBefore;
    forall n | n in ones ensures c.rank == 1 && (n == c.name || TextBefore(c.name, n)) {
      assert Candidate(n, 1) in items;
    }
    forall n | n in twos && ones == {} ensures c.rank == 2 && (n == c.name || TextBefore(c.name, n)) {
      assert Candidate(n, 2) in items;
    }
    forall n | n in threes && ones == {} && twos == {} ensures n == c.name || TextBefore(c.name, n) {
      assert Candidate(n, 3) in items;
    }
  }

  lemma CanonicalNames(routes: set<ModelRoute>, reverse: ReverseLookups, r: ModelRoute)
    requires r in routes && Named(r)
    ensures SemanticKey(r) in SemanticKeys(routes)
    ensures NamedBy(routes, reverse, r, Canonical(routes, reverse, SemanticKey(r)))
  {
    hide SemanticKey, Family, Sources, NormalForms, RawNames, Gather, FirstName, IsLeast;
    KeyPresent(routes, r);
    var name := Canonical(routes, reverse, SemanticKey(r));
    var items := Gather(routes, InBucket(SemanticKey(r)), CandidatesOf(reverse));
    var rank :| IsLeast(items, Candidate(name, rank));
    var family := Family(routes, r);
    forall d
      ensures d in items
         <==> || (d.rank == 1 && d.name in Sources(family, reverse)) || (d.rank == 2 && d.name in NormalForms(family))
              || (d.rank == 3 && d.name in RawNames(family))
    {
      CandidateRanks(routes, reverse, r, d);
    }
    LeastByRank(items, Sources(family, reverse), NormalForms(family), RawNames(family), Candidate(name, rank));
    if Sources(family, reverse) == {} && NormalForms(family) != {} {
      FirstIsIn(NormalForms(family), name);
      forall n | n in NormalForms(family) ensures n == name {
        OneNormalForm(routes, r, n, name);
      }
    }
  }

  lemma FirstIsIn(names: set<string>, name: string)
    requires FirstName(names, name)
    ensures name in names
  {
  }

  /** Every named enabled route has exactly one such name. */
  lemma NameUnique(routes: set<ModelRoute>, reverse: ReverseLookups, r: ModelRoute, name: string)
    requires r in routes && Named(r) && SemanticKey(r) in SemanticKeys(routes)
    ensures NamedBy(routes, reverse, r, name) <==> name == Canonical(routes, reverse, SemanticKey(r))
  {
    hide SemanticKey, SemanticKeys, Family, Sources, NormalForms, RawNames, FirstName;
    CanonicalNames(routes, reverse, r);
    if NamedBy(routes, reverse, r, name) {
      var family, other := Family(routes, r), Canonical(routes, reverse, SemanticKey(r));
      if Sources(family, reverse) != {} {
        FirstNameUnique(Sources(family, reverse), name, other);
      } else if NormalForms(family) != {} {
        assert name in {other};
      } else {
        FirstNameUnique(RawNames(family), name, other);
      }
    }
  }

  /** Two routes are listed in one entry exactly when their names fold alike. */
  lemma SharesEntryIff(entries: seq<Entry>, routes: set<ModelRoute>, reverse: ReverseLookups, r: ModelRoute,
                       q: ModelRoute, c: string, d: string)
    requires IsCatalog(entries, routes, reverse)
    requires r in routes && Named(r) && NamedBy(routes, reverse, r, c)
    requires q in routes && Named(q) && NamedBy(routes, reverse, q, d)
    ensures (exists i :: 0 <= i < |entries| && ListsTarget(entries[i], r) && ListsTarget(entries[i], q))
       <==> ToLower(c) == ToLower(d)
  {
    hide SemanticKey, SemanticKeys, Canonical, NamedBy, IsEntry, ListsTarget, ToLower, Homes;
    KeyPresent(routes, r);
    KeyPresent(routes, q);
    NameUnique(routes, reverse, r, c);
    NameUnique(routes, reverse, q, d);
    var homes := SortedElements(Homes(routes, reverse, SemanticKeys(routes)));
    var at := RouteTargetsPartition(entries, routes, reverse, r);
    TargetAtHome(entries[at], routes, reverse, homes[at], r);
    TargetAtHome(entries[at], routes, reverse, homes[at], q);
  }

  /** The canonical name of an entry is the first of the names of the routes it lists. */
  lemma EntryNamed(entries: seq<Entry>, routes: set<ModelRoute>, reverse: ReverseLookups, i: nat)
    requires IsCatalog(entries, routes, reverse) && i < |entries|
    ensures exists r :: r in routes && Named(r) && ListsTarget(entries[i], r)
                        && NamedBy(routes, reverse, r, entries[i].canonicalModel)
    ensures forall r, c :: r in routes && Named(r) && ListsTarget(entries[i], r) && NamedBy(routes, reverse, r, c) ==>
              c == entries[i].canonicalModel || TextBefore(entries[i].canonicalModel, c)
  {
    hide Canonical, NamedBy, ListsTarget, ToLower, TextBefore, Lists, Home, Homes, InHome, SemanticKey;
    var keys := SemanticKeys(routes);
    var home := SortedElements(Homes(routes, reverse, keys))[i];
    var name := entries[i].canonicalModel;
    assert IsEntry(entries[i], routes, reverse, home);
    var k :| k in keys && Home(routes, reverse, k) == home && Canonical(routes, reverse, k) == name;
    var s :| s in routes && Named(s) && SemanticKey(s) == k;
    TargetAtHome(entries[i], routes, reverse, home, s);
    NameUnique(routes, reverse, s, name);
    forall r, c | r in routes && Named(r) && ListsTarget(entries[i], r) && NamedBy(routes, reverse, r, c)
      ensures c == name || TextBefore(name, c)
    {
      TargetAtHome(entries[i], routes, reverse, home, r);
      NameUnique(routes, reverse, r, c);
      assert c in HomeNames(routes, reverse, keys, home);
    }
  }

  /** Without aliases a model is named by its normal form, or by its first spelling, and folds to its bucket's key. */
  lemma PlainName(routes: set<ModelRoute>, reverse: ReverseLookups, r: ModelRoute, c: string)
    requires r in routes && Named(r) && NamedBy(routes, reverse, r, c) && Sources(Family(routes, r), reverse) == {}
    ensures ToLower(c) == SemanticKey(r)
  {
    hide TrimSpace, ToLower, NormalizeModelName, Sources, TextBefore;
    var family := Family(routes, r);
    if NormalForms(family) != {} {
      var q :| q in family && NormalizeModelName(TrimSpace(q.modelName)) == c != [];
      NormalizedIsLower(TrimSpace(q.modelName));
    } else {
      assert r in family;
      assert c in RawNames(family);
      var q :| q in family && TrimSpace(q.modelName) == c;
      assert NormalizeModelName(TrimSpace(q.modelName)) == [] by {
        assert NormalizeModelName(TrimSpace(q.modelName)) !in NormalForms(family);
      }
    }
  }

  /** Among routes without alias sources, those listed together are exactly those whose names are alike. */
  lemma PlainRoutesShareIff(entries: seq<Entry>, routes: set<ModelRoute>, reverse: ReverseLookups, r: ModelRoute,
                            q: ModelRoute)
    requires IsCatalog(entries, routes, reverse)
    requires r in routes && Named(r) && q in routes && Named(q)
    requires forall p, s :: p in routes && (Alike(p.modelName, r.modelName) || Alike(p.modelName, q.modelName)) ==>
               !HasSource(p, reverse, s)
    ensures (exists i :: 0 <= i < |entries| && ListsTarget(entries[i], r) && ListsTarget(entries[i], q))
       <==> Alike(r.modelName, q.modelName)
  {
    NoSources(routes, reverse, r);
    NoSources(routes, reverse, q);
    AlikeMeaning(r, q);
    hide SemanticKey, NamedBy, IsCatalog, ListsTarget, Alike, HasSource, Family, Sources;
    CanonicalNames(routes, reverse, r);
    CanonicalNames(routes, reverse, q);
    var c, d := Canonical(routes, reverse, SemanticKey(r)), Canonical(routes, reverse, SemanticKey(q));
    PlainName(routes, reverse, r, c);
    PlainName(routes, reverse, q, d);
    SharesEntryIff(entries, routes, reverse, r, q, c, d);
  }

  lemma NoSources(routes: set<ModelRoute>, reverse: ReverseLookups, r: ModelRoute)
    requires forall p, s :: p in routes && Alike(p.modelName, r.modelName) ==> !HasSource(p, reverse, s)
    ensures Sources(Family(routes, r), reverse) == {}
  {
    hide Alike, Alias.Resolve, TrimSpace;
    forall q | q in Family(routes, r) && q.providerId in reverse
      ensures Alias.Resolve(reverse[q.providerId], TrimSpace(q.modelName)).None?
    {
      var mapped := Alias.Resolve(reverse[q.providerId], TrimSpace(q.modelName));
      assert !HasSource(q, reverse, if mapped.Some? then mapped.value else []);
    }
  }
}
