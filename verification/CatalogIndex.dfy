/**
 * model/model_catalog.go: the catalog snapshot and its four hash indexes.
 * The indexes answer `resolve` exactly as a scan over the entries would.
 */
module CatalogIndex {
  import opened Text
  import opened ModelAlias
  import opened Wrappers

  datatype Entry = Entry(canonicalModel: string, aliases: seq<string>, routeTargets: seq<string>)

  datatype Catalog = Catalog(
    entries: seq<Entry>,
    byCanonical: map<string, nat>,
    byExact: map<string, nat>,
    byNormalized: map<string, nat>,
    byVersionKey: map<string, nat>)
  {
    function At(index: map<string, nat>, key: string): Option<Entry> {
      if key in index && index[key] < |entries| then Some(entries[index[key]]) else None
    }

    function Resolve(modelName: string): Option<Entry> {
      var trimmed := TrimSpace(modelName);
      if trimmed == [] || entries == [] then None
      else
        var lower := ToLower(trimmed);
        if At(byCanonical, lower).Some? then At(byCanonical, lower)
        else if At(byExact, lower).Some? then At(byExact, lower)
        else
          var normalized := NormalizeModelName(trimmed);
          if normalized == [] then None
          else if At(byNormalized, normalized).Some? then At(byNormalized, normalized)
          else
            var versionKey := ToVersionAgnosticKey(normalized);
            if versionKey != [] then At(byVersionKey, versionKey) else None
    }
  }

  const EMPTY := Catalog([], map[], map[], map[], map[])

  /** The first registration of a key wins. */
  function PutNew(index: map<string, nat>, key: string, i: nat): map<string, nat> {
    if key in index then index else index[key := i]
  }

  function Register(c: Catalog, i: nat, candidate: string): Catalog {
    var trimmed := TrimSpace(candidate);
    if trimmed == [] then c
    else
      var exact := c.(byExact := PutNew(c.byExact, ToLower(trimmed), i));
      var normalized := NormalizeModelName(trimmed);
      if normalized == [] then exact
      else
        var versionKey := ToVersionAgnosticKey(normalized);
        exact.(byNormalized := PutNew(c.byNormalized, normalized, i),
               byVersionKey := if versionKey == [] then c.byVersionKey else PutNew(c.byVersionKey, versionKey, i))
  }

  function RegisterAll(c: Catalog, i: nat, names: seq<string>): Catalog {
    if names == [] then c
    else Register(RegisterAll(c, i, names[..|names| - 1]), i, names[|names| - 1])
  }

  function NamesOf(e: Entry): seq<string> {
    [e.canonicalModel] + e.aliases + e.routeTargets
  }

  function AddEntry(c: Catalog, e: Entry): Catalog {
    var i := |c.entries|;
    var canonical := c.byCanonical[ToLower(e.canonicalModel) := i];
    RegisterAll(c.(entries := c.entries + [e], byCanonical := canonical), i, NamesOf(e))
  }

  /** The indexes over a list of entries. */
  function Indexed(entries: seq<Entry>): Catalog {
    if entries == [] then EMPTY
    else AddEntry(Indexed(entries[..|entries| - 1]), entries[|entries| - 1])
  }

  /** The snapshot while it is being built. */
  class Snapshot {
    var entries: seq<Entry>
    var byCanonical: map<string, nat>
    var byExact: map<string, nat>
    var byNormalized: map<string, nat>
    var byVersionKey: map<string, nat>

    function Value(): Catalog
      reads this
    {
      Catalog(entries, byCanonical, byExact, byNormalized, byVersionKey)
    }

    constructor ()
      ensures Value() == EMPTY
    {
      entries, byCanonical, byExact, byNormalized, byVersionKey := [], map[], map[], map[], map[];
    }

    method RegisterLookup(entryIdx: nat, candidate: string)
      modifies this
      ensures Value() == Register(old(Value()), entryIdx, candidate)
    {
      hide TrimSpace, ToLower, NormalizeModelName, ToVersionAgnosticKey;
      var trimmed := TrimSpace(candidate);
      if trimmed == [] {
        return;
      }
      var lower := ToLower(trimmed);
      if lower !in byExact {
        byExact := byExact[lower := entryIdx];
      }
      var normalized := NormalizeModelName(trimmed);
      if normalized != [] {
        if normalized !in byNormalized {
          byNormalized := byNormalized[normalized := entryIdx];
        }
        var versionKey := ToVersionAgnosticKey(normalized);
        if versionKey != [] {
          if versionKey !in byVersionKey {
            byVersionKey := byVersionKey[versionKey := entryIdx];
          }
        }
      }
    }

    /** One finished entry: appended, then registered under its canonical name, its aliases and its targets. */
    method Append(entry: Entry)
      modifies this
      ensures Value() == AddEntry(old(Value()), entry)
    {
      hide Register, ToLower, NormalizeModelName, ToVersionAgnosticKey;
      var entryIdx := |entries|;
      entries := entries + [entry];
      byCanonical := byCanonical[ToLower(entry.canonicalModel) := entryIdx];
      ghost var start := Value();
      var names := [entry.canonicalModel] + entry.aliases + entry.routeTargets;
      for k := 0 to |names|
        invariant Value() == RegisterAll(start, entryIdx, names[..k])
      {
        assert names[..k + 1][..k] == names[..k];
        RegisterLookup(entryIdx, names[k]);
      }
      assert names[..|names|] == names;
    }
  }

  // ---------------------------------------------------------------- the scan the indexes stand for

  predicate FoldsTo(name: string, key: string) {
    TrimSpace(name) != [] && ToLower(TrimSpace(name)) == key
  }

  predicate NormalizesTo(name: string, key: string) {
    TrimSpace(name) != [] && NormalizeModelName(TrimSpace(name)) == key != []
  }

  predicate VersionKeyIs(name: string, key: string) {
    && TrimSpace(name) != [] && NormalizeModelName(TrimSpace(name)) != []
    && ToVersionAgnosticKey(NormalizeModelName(TrimSpace(name))) == key != []
  }

  predicate AnyName(names: seq<string>, p: (string, string) -> bool, key: string) {
    exists n :: n in names && p(n, key)
  }

  /** The first entry that carries a name related to the key. */
  function FirstEntry(entries: seq<Entry>, p: (string, string) -> bool, key: string): (r: Option<nat>)
    ensures r.Some? ==> r.value < |entries| && AnyName(NamesOf(entries[r.value]), p, key)
    ensures r.Some? ==> forall j :: 0 <= j < r.value ==> !AnyName(NamesOf(entries[j]), p, key)
    ensures r.None? ==> forall j :: 0 <= j < |entries| ==> !AnyName(NamesOf(entries[j]), p, key)
  {
    if entries == [] then None
    else
      var n := |entries| - 1;
      var earlier := FirstEntry(entries[..n], p, key);
      if earlier.Some? then earlier
      else if AnyName(NamesOf(entries[n]), p, key) then Some(n)
      else None
  }

  /** The entry whose canonical name folds to the key, if any; the last one, should there be several. */
  function CanonicalEntry(entries: seq<Entry>, key: string): (r: Option<nat>)
    ensures r.Some? ==> r.value < |entries| && ToLower(entries[r.value].canonicalModel) == key
    ensures r.None? ==> forall j :: 0 <= j < |entries| ==> ToLower(entries[j].canonicalModel) != key
  {
    if entries == [] then None
    else
      var n := |entries| - 1;
      if ToLower(entries[n].canonicalModel) == key then Some(n) else CanonicalEntry(entries[..n], key)
  }

  /** Canonical name first, then any name, then any normalized name, then any version key. */
  function ResolveScan(entries: seq<Entry>, modelName: string): Option<nat> {
    var trimmed := TrimSpace(modelName);
    if trimmed == [] then None
    else
      var lower, normalized := ToLower(trimmed), NormalizeModelName(trimmed);
      var canonical, exact := CanonicalEntry(entries, lower), FirstEntry(entries, FoldsTo, lower);
      if canonical.Some? then canonical
      else if exact.Some? then exact
      else if normalized == [] then None
      else
        var normal := FirstEntry(entries, NormalizesTo, normalized);
        if normal.Some? then normal
        else FirstEntry(entries, VersionKeyIs, ToVersionAgnosticKey(normalized))
  }

  /**
   * An index holds, for a key, the first entry with a related name, while the names of the next are being registered.
   */
  ghost predicate ServesPartly(index: map<string, nat>, entries: seq<Entry>, names: seq<string>,
                               p: (string, string) -> bool) {
    forall key :: match FirstEntry(entries, p, key)
                  case Some(i) => key in index && index[key] == i
                  case None => (key in index <==> AnyName(names, p, key)) && (key in index ==> index[key] == |entries|)
  }

  ghost predicate AllServe(c: Catalog, entries: seq<Entry>, names: seq<string>) {
    && ServesPartly(c.byExact, entries, names, FoldsTo)
    && ServesPartly(c.byNormalized, entries, names, NormalizesTo)
    && ServesPartly(c.byVersionKey, entries, names, VersionKeyIs)
  }

  /** Registering one more name under at most one key keeps the index right. */
  lemma PutServes(index: map<string, nat>, entries: seq<Entry>, names: seq<string>, name: string,
                  p: (string, string) -> bool, key: Option<string>)
    requires ServesPartly(index, entries, names, p)
    requires forall k :: p(name, k) <==> key == Some(k)
    ensures ServesPartly(if key.Some? then PutNew(index, key.value, |entries|) else index, entries, names + [name], p)
  {
    forall k ensures AnyName(names + [name], p, k) <==> AnyName(names, p, k) || p(name, k) {
      if AnyName(names, p, k) {
        var n :| n in names && p(n, k);
        assert n in names + [name];
      }
      if p(name, k) {
        assert name in names + [name];
      }
    }
  }

  lemma {:induction false} RegisterAllServes(c: Catalog, entries: seq<Entry>, names: seq<string>)
    requires AllServe(c, entries, [])
    ensures AllServe(RegisterAll(c, |entries|, names), entries, names)
    ensures RegisterAll(c, |entries|, names).entries == c.entries
    ensures RegisterAll(c, |entries|, names).byCanonical == c.byCanonical
  {
    if names != [] {
      var init, name := names[..|names| - 1], names[|names| - 1];
      RegisterAllServes(c, entries, init);
      assert names == init + [name];
      var d := RegisterAll(c, |entries|, init);
      RegisterServes(d, entries, init, name);
    }
  }

  lemma RegisterServes(d: Catalog, entries: seq<Entry>, names: seq<string>, name: string)
    requires AllServe(d, entries, names)
    ensures AllServe(Register(d, |entries|, name), entries, names + [name])
  {
    hide NormalizeModelName, ToVersionAgnosticKey, TrimSpace, ToLower, ServesPartly;
    var trimmed := TrimSpace(name);
    var normalized := NormalizeModelName(trimmed);
    var versionKey := ToVersionAgnosticKey(normalized);
    PutServes(d.byExact, entries, names, name, FoldsTo, if trimmed == [] then None else Some(ToLower(trimmed)));
    PutServes(d.byNormalized, entries, names, name, NormalizesTo,
              if trimmed == [] || normalized == [] then None else Some(normalized));
    PutServes(d.byVersionKey, entries, names, name, VersionKeyIs,
              if trimmed == [] || normalized == [] || versionKey == [] then None else Some(versionKey));
  }

  lemma ServesNext(index: map<string, nat>, entries: seq<Entry>, e: Entry, p: (string, string) -> bool)
    requires ServesPartly(index, entries, NamesOf(e), p)
    ensures ServesPartly(index, entries + [e], [], p)
  {
    assert (entries + [e])[..|entries|] == entries;
  }

  ghost predicate CanonicalServes(index: map<string, nat>, entries: seq<Entry>) {
    forall key :: match CanonicalEntry(entries, key)
                  case Some(i) => key in index && index[key] == i
                  case None => key !in index
  }

  lemma {:induction false} IndexedServes(entries: seq<Entry>)
    ensures Indexed(entries).entries == entries
    ensures CanonicalServes(Indexed(entries).byCanonical, entries)
    ensures AllServe(Indexed(entries), entries, [])
  {
    if entries != [] {
      var init, e := entries[..|entries| - 1], entries[|entries| - 1];
      IndexedServes(init);
      assert entries == init + [e];
      var c := Indexed(init);
      var start := c.(entries := c.entries + [e], byCanonical := c.byCanonical[ToLower(e.canonicalModel) := |init|]);
      RegisterAllServes(start, init, NamesOf(e));
      var next := Indexed(entries);
      ServesNext(next.byExact, init, e, FoldsTo);
      ServesNext(next.byNormalized, init, e, NormalizesTo);
      ServesNext(next.byVersionKey, init, e, VersionKeyIs);
    }
  }

  ghost function EntryAt(entries: seq<Entry>, i: Option<nat>): Option<Entry>
    requires i.Some? ==> i.value < |entries|
  {
    if i.Some? then Some(entries[i.value]) else None
  }

  lemma ServedAt(c: Catalog, index: map<string, nat>, p: (string, string) -> bool, key: string)
    requires ServesPartly(index, c.entries, [], p)
    ensures c.At(index, key) == EntryAt(c.entries, FirstEntry(c.entries, p, key))
  {
    assert !AnyName([], p, key);
    var i := FirstEntry(c.entries, p, key);
  }

  lemma CanonicalAt(c: Catalog, key: string)
    requires CanonicalServes(c.byCanonical, c.entries)
    ensures c.At(c.byCanonical, key) == EntryAt(c.entries, CanonicalEntry(c.entries, key))
  {
    var i := CanonicalEntry(c.entries, key);
  }

  lemma BlankVersionKey(entries: seq<Entry>)
    ensures FirstEntry(entries, VersionKeyIs, []) == None
  {
    assert forall i :: 0 <= i < |entries| ==> !AnyName(NamesOf(entries[i]), VersionKeyIs, []);
  }

  lemma IndexAnswers(entries: seq<Entry>, key: string)
    ensures var c := Indexed(entries);
            && c.entries == entries
            && c.At(c.byCanonical, key) == EntryAt(entries, CanonicalEntry(entries, key))
            && c.At(c.byExact, key) == EntryAt(entries, FirstEntry(entries, FoldsTo, key))
            && c.At(c.byNormalized, key) == EntryAt(entries, FirstEntry(entries, NormalizesTo, key))
            && c.At(c.byVersionKey, key) == EntryAt(entries, FirstEntry(entries, VersionKeyIs, key))
  {
    hide ServesPartly, CanonicalServes, FirstEntry, CanonicalEntry, Catalog.At, Indexed;
    IndexedServes(entries);
    var c := Indexed(entries);
    CanonicalAt(c, key);
    ServedAt(c, c.byExact, FoldsTo, key);
    ServedAt(c, c.byNormalized, NormalizesTo, key);
    ServedAt(c, c.byVersionKey, VersionKeyIs, key);
  }

  /** Refinement: the four hash indexes answer like the scan. */
  lemma ResolveIsScan(entries: seq<Entry>, modelName: string)
    ensures var i := ResolveScan(entries, modelName);
            && (i.Some? ==> i.value < |entries|)
            && Indexed(entries).Resolve(modelName) == EntryAt(entries, i)
  {
    hide NormalizeModelName, ToVersionAgnosticKey, TrimSpace, ToLower, FirstEntry, CanonicalEntry, Catalog.At, Indexed;
    var trimmed := TrimSpace(modelName);
    var normalized := NormalizeModelName(trimmed);
    IndexAnswers(entries, ToLower(trimmed));
    IndexAnswers(entries, normalized);
    IndexAnswers(entries, ToVersionAgnosticKey(normalized));
    BlankVersionKey(entries);
  }

  /** Canonical names that differ by more than case. */
  ghost predicate DistinctCanonicals(entries: seq<Entry>) {
    && (forall j :: 0 <= j < |entries| ==> TrimSpace(entries[j].canonicalModel) == entries[j].canonicalModel != [])
    && (forall j, k :: 0 <= j < k < |entries| ==>
          ToLower(entries[j].canonicalModel) != ToLower(entries[k].canonicalModel))
  }

  /**
   * Every name an entry lists resolves, and to an entry that has that name, up to case, for its canonical name or
   * among its aliases and targets.
   */
  lemma ListedNameResolves(entries: seq<Entry>, i: nat, name: string)
    requires i < |entries| && TrimSpace(name) != []
    requires name == entries[i].canonicalModel || name in entries[i].aliases || name in entries[i].routeTargets
    ensures Indexed(entries).Resolve(name).Some?
    ensures var e, fold := Indexed(entries).Resolve(name).value, ToLower(TrimSpace(name));
            || ToLower(e.canonicalModel) == fold
            || exists n :: (n == e.canonicalModel || n in e.aliases || n in e.routeTargets)
                           && ToLower(TrimSpace(n)) == fold
  {
    hide NormalizeModelName, ToVersionAgnosticKey, TrimSpace, ToLower, Indexed, Catalog.Resolve;
    ResolveIsScan(entries, name);
    var fold := ToLower(TrimSpace(name));
    assert name in NamesOf(entries[i]);
    assert AnyName(NamesOf(entries[i]), FoldsTo, fold);
    var exact := FirstEntry(entries, FoldsTo, fold);
    if CanonicalEntry(entries, fold).None? {
      var n :| n in NamesOf(entries[exact.value]) && FoldsTo(n, fold);
    }
  }

  /** Resolving the canonical name of any entry gives that entry. */
  lemma ResolveCanonical(entries: seq<Entry>, i: nat)
    requires i < |entries| && DistinctCanonicals(entries)
    ensures Indexed(entries).Resolve(entries[i].canonicalModel) == Some(entries[i])
  {
    hide NormalizeModelName, ToVersionAgnosticKey, FirstEntry, Indexed;
    ResolveIsScan(entries, entries[i].canonicalModel);
    var at := CanonicalEntry(entries, ToLower(entries[i].canonicalModel));
    assert at == Some(i);
  }

  /** Fixpoint: whatever name an entry was resolved from, its canonical name resolves to it again. */
  lemma ResolveFixpoint(entries: seq<Entry>, modelName: string)
    requires DistinctCanonicals(entries)
    requires Indexed(entries).Resolve(modelName).Some?
    ensures var entry := Indexed(entries).Resolve(modelName).value;
            Indexed(entries).Resolve(entry.canonicalModel) == Some(entry)
  {
    hide NormalizeModelName, ToVersionAgnosticKey, FirstEntry, Indexed, Catalog.Resolve, ResolveScan,
         DistinctCanonicals;
    ResolveIsScan(entries, modelName);
    var i := ResolveScan(entries, modelName);
    ResolveCanonical(entries, i.value);
  }
}
