/** model/provider_alias_mapping.go: per-provider aliases, looked up by source and by target. */
module ProviderAlias {
  import opened Text
  import opened Sorting
  import opened ModelAlias
  import opened Wrappers

  type Mapping = map<string, string>

  datatype Lookup = Lookup(direct: map<string, string>, normalized: map<string, string>)

  const EMPTY_LOOKUP := Lookup(map[], map[])

  /** An entry counts when neither side is blank. */
  predicate Usable(mapping: Mapping, source: string) {
    source in mapping && TrimSpace(source) != [] && TrimSpace(mapping[source]) != []
  }

  // ---------------------------------------------------------------- NormalizeProviderAliasMapping

  function CleanOne(mapping: Mapping, source: string, clean: Mapping): Mapping {
    if Usable(mapping, source) then clean[TrimSpace(source) := TrimSpace(mapping[source])] else clean
  }

  function CleanAlong(mapping: Mapping, walk: seq<string>): Mapping {
    if walk == [] then map[]
    else CleanOne(mapping, walk[|walk| - 1], CleanAlong(mapping, walk[..|walk| - 1]))
  }

  /** The mapping is walked in whatever order Go's map iteration takes. */
  method NormalizeMapping(mapping: Mapping) returns (clean: Mapping, ghost walk: seq<string>)
    ensures WalksKeys(walk, mapping) && clean == CleanAlong(mapping, walk)
    ensures forall k :: k in clean <==> exists s :: Usable(mapping, s) && TrimSpace(s) == k
    ensures forall k :: k in clean ==>
              exists s :: Usable(mapping, s) && TrimSpace(s) == k && clean[k] == TrimSpace(mapping[s])
  {
    hide TrimSpace;
    var sources := AnyOrder(mapping.Keys);
    walk := sources;
    clean := map[];
    for i := 0 to |sources|
      invariant clean == CleanAlong(mapping, sources[..i])
    {
      assert sources[..i + 1][..i] == sources[..i];
      assert sources[i] in sources;
      var key, value := TrimSpace(sources[i]), TrimSpace(mapping[sources[i]]);
      if key == [] || value == [] {
        continue;
      }
      clean := clean[key := value];
    }
    assert sources[..|sources|] == sources;
    CleanMeaning(mapping, sources);
  }

  ghost predicate WalksKeys(walk: seq<string>, mapping: Mapping) {
    NoDuplicates(walk) && forall s :: s in walk <==> s in mapping
  }

  /** Two usable sources that trim to the same key but carry different targets. */
  ghost predicate Clash(mapping: Mapping, s: string, t: string) {
    && Usable(mapping, s) && Usable(mapping, t)
    && TrimSpace(s) == TrimSpace(t) && TrimSpace(mapping[s]) != TrimSpace(mapping[t])
  }

  lemma {:induction false} CleanAlongMeaning(mapping: Mapping, walk: seq<string>, k: string)
    ensures k in CleanAlong(mapping, walk) <==> exists s :: s in walk && Usable(mapping, s) && TrimSpace(s) == k
    ensures k in CleanAlong(mapping, walk) ==>
              exists s :: s in walk && Usable(mapping, s) && TrimSpace(s) == k
                          && CleanAlong(mapping, walk)[k] == TrimSpace(mapping[s])
  {
    if walk != [] {
      var init, last := walk[..|walk| - 1], walk[|walk| - 1];
      CleanAlongMeaning(mapping, init, k);
      assert walk == init + [last];
      if Usable(mapping, last) && TrimSpace(last) == k {
        assert last in walk;
      }
    }
  }

  lemma CleanMeaning(mapping: Mapping, walk: seq<string>)
    requires WalksKeys(walk, mapping)
    ensures var clean := CleanAlong(mapping, walk);
            && (forall k :: k in clean <==> exists s :: Usable(mapping, s) && TrimSpace(s) == k)
            && (forall k :: k in clean ==>
                  exists s :: Usable(mapping, s) && TrimSpace(s) == k && clean[k] == TrimSpace(mapping[s]))
  {
    hide TrimSpace, CleanAlong;
    forall k
      ensures k in CleanAlong(mapping, walk) <==> exists s :: s in walk && Usable(mapping, s) && TrimSpace(s) == k
      ensures k in CleanAlong(mapping, walk) ==>
                exists s :: s in walk && Usable(mapping, s) && TrimSpace(s) == k
                            && CleanAlong(mapping, walk)[k] == TrimSpace(mapping[s])
    {
      CleanAlongMeaning(mapping, walk, k);
    }
  }

  lemma {:induction false} WalkEndingIn(keys: set<string>, last: string) returns (walk: seq<string>)
    requires last in keys
    ensures NoDuplicates(walk) && (forall s :: s in walk <==> s in keys)
    ensures walk != [] && walk[|walk| - 1] == last
  {
    var front := SortedElements(keys - {last});
    LessIsTotal();
    walk := front + [last];
  }

  /** The cleaned mapping is independent of the walk exactly when no two sources clash. */
  lemma CleaningDeterministicIff(mapping: Mapping)
    ensures (forall v, w :: WalksKeys(v, mapping) && WalksKeys(w, mapping) ==>
               CleanAlong(mapping, v) == CleanAlong(mapping, w))
       <==> (forall s, t :: !Clash(mapping, s, t))
  {
    if forall s, t :: !Clash(mapping, s, t) {
      forall v, w | WalksKeys(v, mapping) && WalksKeys(w, mapping)
        ensures CleanAlong(mapping, v) == CleanAlong(mapping, w)
      {
        forall k ensures k in CleanAlong(mapping, v) <==> k in CleanAlong(mapping, w)
                 ensures k in CleanAlong(mapping, v) ==> CleanAlong(mapping, v)[k] == CleanAlong(mapping, w)[k]
        {
          CleanAlongMeaning(mapping, v, k);
          CleanAlongMeaning(mapping, w, k);
          if k in CleanAlong(mapping, v) {
            var s :| s in v && Usable(mapping, s) && TrimSpace(s) == k
                   && CleanAlong(mapping, v)[k] == TrimSpace(mapping[s]);
            var t :| t in w && Usable(mapping, t) && TrimSpace(t) == k
                   && CleanAlong(mapping, w)[k] == TrimSpace(mapping[t]);
            assert !Clash(mapping, s, t);
          }
        }
      }
    } else {
      var s, t :| Clash(mapping, s, t);
      var v := WalkEndingIn(mapping.Keys, s);
      var w := WalkEndingIn(mapping.Keys, t);
      assert CleanAlong(mapping, v)[TrimSpace(s)] != CleanAlong(mapping, w)[TrimSpace(s)];
      assert WalksKeys(v, mapping) && WalksKeys(w, mapping);
    }
  }

  /** Two sources that differ in outer white space: the table depends on which one the walk meets last. */
  lemma ClashExample()
    ensures var mapping: Mapping := map[" a" := "x", "a" := "y"];
            && Clash(mapping, " a", "a")
            && WalksKeys([" a", "a"], mapping) && WalksKeys(["a", " a"], mapping)
            && CleanAlong(mapping, [" a", "a"]) == map["a" := "y"]
            && CleanAlong(mapping, ["a", " a"]) == map["a" := "x"]
  {
    var mapping: Mapping := map[" a" := "x", "a" := "y"];
    assert TrimLeft(" a") == TrimLeft("a") by { assert " a"[1..] == "a"; }
    TrimSpaceTrimmed("a");
    TrimSpaceTrimmed("x");
    TrimSpaceTrimmed("y");
    assert TrimSpace(" a") == "a";
    hide TrimSpace;
    TwoSources(mapping, " a", "a");
    TwoSources(mapping, "a", " a");
  }

  lemma TwoSources(mapping: Mapping, s: string, t: string)
    requires Usable(mapping, s) && Usable(mapping, t)
    ensures CleanAlong(mapping, [s, t])
         == map[TrimSpace(s) := TrimSpace(mapping[s])][TrimSpace(t) := TrimSpace(mapping[t])]
  {
    hide TrimSpace;
    assert [s, t][..1] == [s] && [s][..0] == [];
    assert CleanAlong(mapping, []) == map[];
  }

  // ---------------------------------------------------------------- the two lookups

  function DirectKey(name: string): string {
    ToLower(TrimSpace(name))
  }

  function NormalKey(name: string): string {
    NormalizeModelName(TrimSpace(name))
  }

  /** One source folded into the forward lookup: the later source wins. */
  function AddForward(mapping: Mapping, source: string, l: Lookup): Lookup {
    if !Usable(mapping, source) then l
    else
      var value := TrimSpace(mapping[source]);
      Lookup(l.direct[DirectKey(source) := value],
             if NormalKey(source) != [] then l.normalized[NormalKey(source) := value] else l.normalized)
  }

  /** One source folded into the reverse lookup: the earlier source wins. */
  function AddReverse(mapping: Mapping, source: string, l: Lookup): Lookup {
    if !Usable(mapping, source) then l
    else
      var key, norm := DirectKey(mapping[source]), NormalKey(mapping[source]);
      Lookup(if key in l.direct then l.direct else l.direct[key := TrimSpace(source)],
             if norm == [] || norm in l.normalized then l.normalized else l.normalized[norm := TrimSpace(source)])
  }

  function ForwardAlong(mapping: Mapping, sources: seq<string>): Lookup {
    if sources == [] then EMPTY_LOOKUP
    else AddForward(mapping, sources[|sources| - 1], ForwardAlong(mapping, sources[..|sources| - 1]))
  }

  function ReverseAlong(mapping: Mapping, sources: seq<string>): Lookup {
    if sources == [] then EMPTY_LOOKUP
    else AddReverse(mapping, sources[|sources| - 1], ReverseAlong(mapping, sources[..|sources| - 1]))
  }

  ghost function ForwardLookup(mapping: Mapping): Lookup {
    ForwardAlong(mapping, SortedElements(mapping.Keys))
  }

  ghost function ReverseLookup(mapping: Mapping): Lookup {
    ReverseAlong(mapping, SortedElements(mapping.Keys))
  }

  method BuildLookup(mapping: Mapping) returns (lookup: Lookup)
    ensures lookup == ForwardLookup(mapping)
  {
    hide TrimSpace, ToLower, NormalizeModelName, StrictlySorted;
    var sources := SortedNames(mapping.Keys);
    var direct: map<string, string> := map[];
    var normalized: map<string, string> := map[];
    for i := 0 to |sources|
      invariant Lookup(direct, normalized) == ForwardAlong(mapping, sources[..i])
    {
      assert sources[..i + 1][..i] == sources[..i];
      var key, value := TrimSpace(sources[i]), TrimSpace(mapping[sources[i]]);
      if key == [] || value == [] {
        continue;
      }
      direct := direct[ToLower(key) := value];
      var normalizedKey := NormalizeModelName(key);
      if normalizedKey != [] {
        normalized := normalized[normalizedKey := value];
      }
    }
    assert sources[..|sources|] == sources;
    lookup := Lookup(direct, normalized);
  }

  method BuildReverseLookup(mapping: Mapping) returns (lookup: Lookup)
    ensures lookup == ReverseLookup(mapping)
  {
    hide TrimSpace, ToLower, NormalizeModelName, StrictlySorted;
    var sources := SortedNames(mapping.Keys);
    var direct: map<string, string> := map[];
    var normalized: map<string, string> := map[];
    for i := 0 to |sources|
      invariant Lookup(direct, normalized) == ReverseAlong(mapping, sources[..i])
    {
      assert sources[..i + 1][..i] == sources[..i];
      var source, target := TrimSpace(sources[i]), TrimSpace(mapping[sources[i]]);
      if source == [] || target == [] {
        continue;
      }
      if ToLower(target) !in direct {
        direct := direct[ToLower(target) := source];
      }
      var normTarget := NormalizeModelName(target);
      if normTarget != [] && normTarget !in normalized {
        normalized := normalized[normTarget := source];
      }
    }
    assert sources[..|sources|] == sources;
    lookup := Lookup(direct, normalized);
  }

  /** `Resolve` of the forward lookup and `ResolveByTarget` of the reverse one share this body. */
  function Resolve(l: Lookup, name: string): (r: Option<string>)
    ensures r.Some? ==> Trimmed(r.value) && r.value != []
  {
    var key := TrimSpace(name);
    if key == [] then None
    else if ToLower(key) in l.direct && TrimSpace(l.direct[ToLower(key)]) != [] then
      TrimSpaceTrimmed(l.direct[ToLower(key)]);
      Some(TrimSpace(l.direct[ToLower(key)]))
    else
      var norm := NormalizeModelName(key);
      if norm != [] && norm in l.normalized && TrimSpace(l.normalized[norm]) != [] then
        TrimSpaceTrimmed(l.normalized[norm]);
        Some(TrimSpace(l.normalized[norm]))
      else None
  }

  // ---------------------------------------------------------------- what they mean

  /** `s` is the greatest usable source, in Go's string order, that satisfies `p`. */
  ghost predicate Greatest(mapping: Mapping, p: string -> bool, s: string) {
    Usable(mapping, s) && p(s) && forall t :: Usable(mapping, t) && p(t) ==> t == s || Less(t, s)
  }

  ghost predicate Least(mapping: Mapping, p: string -> bool, s: string) {
    Usable(mapping, s) && p(s) && forall t :: Usable(mapping, t) && p(t) ==> t == s || Less(s, t)
  }

  /** The last usable element of the walk that satisfies `p`. */
  ghost function LastMatch(mapping: Mapping, walk: seq<string>, p: string -> bool): Option<string> {
    if walk == [] then None
    else
      var last := walk[|walk| - 1];
      if Usable(mapping, last) && p(last) then Some(last) else LastMatch(mapping, walk[..|walk| - 1], p)
  }

  ghost function FirstMatch(mapping: Mapping, walk: seq<string>, p: string -> bool): Option<string> {
    if walk == [] then None
    else
      var last := walk[|walk| - 1];
      var earlier := FirstMatch(mapping, walk[..|walk| - 1], p);
      if earlier.Some? then earlier else if Usable(mapping, last) && p(last) then Some(last) else None
  }

  predicate Matches(mapping: Mapping, p: string -> bool, t: string) {
    Usable(mapping, t) && p(t)
  }

  lemma SortedLast(walk: seq<string>, init: seq<string>, last: string)
    requires StrictlySorted(Less, walk) && walk == init + [last]
    ensures StrictlySorted(Less, init)
    ensures forall t :: t in init ==> t in walk && Less(t, last)
    ensures forall t :: t in walk ==> t in init || t == last
    ensures last in walk
  {
    hide Less;
    assert forall i :: 0 <= i < |init| ==> walk[i] == init[i];
    assert walk[|init|] == last;
  }

  lemma {:induction false} LastIsGreatest(mapping: Mapping, walk: seq<string>, p: string -> bool)
    requires StrictlySorted(Less, walk)
    ensures match LastMatch(mapping, walk, p)
            case None => forall t :: t in walk ==> !Matches(mapping, p, t)
            case Some(s) => s in walk && Matches(mapping, p, s)
                            && forall t :: t in walk && Matches(mapping, p, t) ==> t == s || Less(t, s)
  {
    hide Usable, Less, StrictlySorted;
    if walk != [] {
      SortedLast(walk, walk[..|walk| - 1], walk[|walk| - 1]);
      LastIsGreatest(mapping, walk[..|walk| - 1], p);
    }
  }

  lemma {:induction false} FirstIsLeast(mapping: Mapping, walk: seq<string>, p: string -> bool)
    requires StrictlySorted(Less, walk)
    ensures match FirstMatch(mapping, walk, p)
            case None => forall t :: t in walk ==> !Matches(mapping, p, t)
            case Some(f) => f in walk && Matches(mapping, p, f)
                            && forall t :: t in walk && Matches(mapping, p, t) ==> t == f || Less(f, t)
  {
    hide Usable, Less, StrictlySorted;
    if walk != [] {
      SortedLast(walk, walk[..|walk| - 1], walk[|walk| - 1]);
      FirstIsLeast(mapping, walk[..|walk| - 1], p);
    }
  }

  lemma MatchPosition(mapping: Mapping, walk: seq<string>, p: string -> bool)
    requires StrictlySorted(Less, walk)
    ensures LastMatch(mapping, walk, p).None? <==> FirstMatch(mapping, walk, p).None?
    ensures LastMatch(mapping, walk, p).None? ==> forall t :: t in walk ==> !(Usable(mapping, t) && p(t))
    ensures LastMatch(mapping, walk, p).Some? ==>
              var s, f := LastMatch(mapping, walk, p).value, FirstMatch(mapping, walk, p).value;
              && s in walk && Usable(mapping, s) && p(s) && f in walk && Usable(mapping, f) && p(f)
              && forall t :: t in walk && Usable(mapping, t) && p(t) ==>
                   (t == s || Less(t, s)) && (t == f || Less(f, t))
  {
    hide Usable, Less, StrictlySorted, LastMatch, FirstMatch;
    LastIsGreatest(mapping, walk, p);
    FirstIsLeast(mapping, walk, p);
    assert forall t :: Matches(mapping, p, t) <==> Usable(mapping, t) && p(t);
  }

  function KeyIs(k: string): string -> bool {
    s => DirectKey(s) == k
  }

  function NormalIs(k: string): string -> bool {
    s => NormalKey(s) == k
  }

  function TargetKeyIs(mapping: Mapping, k: string): string -> bool {
    s => s in mapping && DirectKey(mapping[s]) == k
  }

  function TargetNormalIs(mapping: Mapping, k: string): string -> bool {
    s => s in mapping && NormalKey(mapping[s]) == k
  }

  lemma {:induction false} ForwardEntry(mapping: Mapping, walk: seq<string>, k: string)
    ensures var l := ForwardAlong(mapping, walk);
            var m := LastMatch(mapping, walk, KeyIs(k));
            && (k in l.direct <==> m.Some?)
            && (m.Some? ==> m.value in mapping && l.direct[k] == TrimSpace(mapping[m.value]))
    ensures k != [] ==>
              var l := ForwardAlong(mapping, walk);
              var m := LastMatch(mapping, walk, NormalIs(k));
              && (k in l.normalized <==> m.Some?)
              && (m.Some? ==> m.value in mapping && l.normalized[k] == TrimSpace(mapping[m.value]))
  {
    hide DirectKey, NormalKey, TrimSpace;
    if walk != [] {
      ForwardEntry(mapping, walk[..|walk| - 1], k);
    }
  }

  lemma {:induction false} ReverseEntry(mapping: Mapping, walk: seq<string>, k: string)
    ensures var l := ReverseAlong(mapping, walk);
            var m := FirstMatch(mapping, walk, TargetKeyIs(mapping, k));
            && (k in l.direct <==> m.Some?)
            && (m.Some? ==> l.direct[k] == TrimSpace(m.value))
    ensures k != [] ==>
              var l := ReverseAlong(mapping, walk);
              var m := FirstMatch(mapping, walk, TargetNormalIs(mapping, k));
              && (k in l.normalized <==> m.Some?)
              && (m.Some? ==> l.normalized[k] == TrimSpace(m.value))
  {
    hide DirectKey, NormalKey, TrimSpace;
    if walk != [] {
      ReverseEntry(mapping, walk[..|walk| - 1], k);
    }
  }

  ghost predicate NoMatch(mapping: Mapping, p: string -> bool) {
    forall s :: Usable(mapping, s) ==> !p(s)
  }

  lemma WalkMatches(mapping: Mapping, p: string -> bool)
    ensures var walk := SortedElements(mapping.Keys);
            && (LastMatch(mapping, walk, p).None? <==> NoMatch(mapping, p))
            && (FirstMatch(mapping, walk, p).None? <==> NoMatch(mapping, p))
            && (LastMatch(mapping, walk, p).Some? ==> Greatest(mapping, p, LastMatch(mapping, walk, p).value))
            && (FirstMatch(mapping, walk, p).Some? ==> Least(mapping, p, FirstMatch(mapping, walk, p).value))
  {
    MatchPosition(mapping, SortedElements(mapping.Keys), p);
  }

  lemma BlankMatchesNothing(mapping: Mapping, name: string)
    requires TrimSpace(name) == []
    ensures NoMatch(mapping, KeyIs(DirectKey(name))) && NoMatch(mapping, TargetKeyIs(mapping, DirectKey(name)))
    ensures NormalKey(name) == []
  {
    assert DirectKey(name) == [];
    LowerTrim(name);
  }

  /** An alias resolves through the greatest source of that name, or else of that normalized name. */
  lemma ResolveMeaning(mapping: Mapping, name: string)
    ensures match Resolve(ForwardLookup(mapping), name)
            case Some(v) =>
              exists s :: s in mapping && v == TrimSpace(mapping[s])
                && if NoMatch(mapping, KeyIs(DirectKey(name)))
                   then NormalKey(name) != [] && Greatest(mapping, NormalIs(NormalKey(name)), s)
                   else Greatest(mapping, KeyIs(DirectKey(name)), s)
            case None =>
              && NoMatch(mapping, KeyIs(DirectKey(name)))
              && (NormalKey(name) == [] || NoMatch(mapping, NormalIs(NormalKey(name))))
  {
    var walk := SortedElements(mapping.Keys);
    ForwardEntry(mapping, walk, DirectKey(name));
    WalkMatches(mapping, KeyIs(DirectKey(name)));
    var exact := LastMatch(mapping, walk, KeyIs(DirectKey(name)));
    if TrimSpace(name) == [] {
      BlankMatchesNothing(mapping, name);
    } else if exact.Some? {
      LowerTrim(mapping[exact.value]);
    } else {
      ForwardEntry(mapping, walk, NormalKey(name));
      WalkMatches(mapping, NormalIs(NormalKey(name)));
      var norm := LastMatch(mapping, walk, NormalIs(NormalKey(name)));
      if NormalKey(name) != [] && norm.Some? {
        LowerTrim(mapping[norm.value]);
      }
    }
  }

  /** A target resolves back to the least source that maps to it, or else to its normalized name. */
  lemma ResolveByTargetMeaning(mapping: Mapping, target: string)
    ensures match Resolve(ReverseLookup(mapping), target)
            case Some(v) =>
              exists s :: s in mapping && v == TrimSpace(s)
                && if NoMatch(mapping, TargetKeyIs(mapping, DirectKey(target)))
                   then NormalKey(target) != [] && Least(mapping, TargetNormalIs(mapping, NormalKey(target)), s)
                   else Least(mapping, TargetKeyIs(mapping, DirectKey(target)), s)
            case None =>
              && NoMatch(mapping, TargetKeyIs(mapping, DirectKey(target)))
              && (NormalKey(target) == [] || NoMatch(mapping, TargetNormalIs(mapping, NormalKey(target))))
  {
    var walk := SortedElements(mapping.Keys);
    ReverseEntry(mapping, walk, DirectKey(target));
    WalkMatches(mapping, TargetKeyIs(mapping, DirectKey(target)));
    var exact := FirstMatch(mapping, walk, TargetKeyIs(mapping, DirectKey(target)));
    if TrimSpace(target) == [] {
      BlankMatchesNothing(mapping, target);
    } else if exact.Some? {
      LowerTrim(exact.value);
    } else {
      ReverseEntry(mapping, walk, NormalKey(target));
      WalkMatches(mapping, TargetNormalIs(mapping, NormalKey(target)));
      var norm := FirstMatch(mapping, walk, TargetNormalIs(mapping, NormalKey(target)));
      if NormalKey(target) != [] && norm.Some? {
        LowerTrim(norm.value);
      }
    }
  }

  /** `a` and `b` are the same model name, or normalize to the same non-empty one. */
  predicate SameModel(a: string, b: string) {
    DirectKey(a) == DirectKey(b) || (NormalKey(a) != [] && NormalKey(a) == NormalKey(b))
  }

  lemma SourceOfTarget(mapping: Mapping, target: string) returns (s: string)
    requires Resolve(ReverseLookup(mapping), target).Some?
    ensures Usable(mapping, s) && SameModel(mapping[s], target)
    ensures Resolve(ReverseLookup(mapping), target).value == TrimSpace(s)
  {
    ResolveByTargetMeaning(mapping, target);
    var source := Resolve(ReverseLookup(mapping), target).value;
    if NoMatch(mapping, TargetKeyIs(mapping, DirectKey(target))) {
      s :| s in mapping && source == TrimSpace(s) && Least(mapping, TargetNormalIs(mapping, NormalKey(target)), s);
    } else {
      s :| s in mapping && source == TrimSpace(s) && Least(mapping, TargetKeyIs(mapping, DirectKey(target)), s);
    }
  }

  /**
   * A source name resolves to the target of the greatest source that differs from it by case or outer space at most.
   */
  lemma SourceResolves(mapping: Mapping, s: string) returns (g: string)
    requires Usable(mapping, s)
    ensures Greatest(mapping, KeyIs(DirectKey(s)), g)
    ensures Resolve(ForwardLookup(mapping), TrimSpace(s)) == Some(TrimSpace(mapping[g]))
  {
    LowerTrim(s);
    ResolveMeaning(mapping, TrimSpace(s));
    assert KeyIs(DirectKey(TrimSpace(s)))(s);
    assert !NoMatch(mapping, KeyIs(DirectKey(TrimSpace(s))));
    g :| g in mapping && Resolve(ForwardLookup(mapping), TrimSpace(s)) == Some(TrimSpace(mapping[g]))
         && Greatest(mapping, KeyIs(DirectKey(TrimSpace(s))), g);
  }

  /**
   * Round trip: the source found for a target resolves again, and to a name of the same model exactly when the
   * greatest source of that folded name, `g`, has a target of the same model.
   */
  lemma AliasRoundTripIff(mapping: Mapping, target: string) returns (g: string)
    requires Resolve(ReverseLookup(mapping), target).Some?
    ensures var source := Resolve(ReverseLookup(mapping), target).value;
            var back := Resolve(ForwardLookup(mapping), source);
            && Greatest(mapping, KeyIs(DirectKey(source)), g)
            && back.Some? && (SameModel(back.value, target) <==> SameModel(mapping[g], target))
  {
    var s := SourceOfTarget(mapping, target);
    LowerTrim(s);
    g := SourceResolves(mapping, s);
    LowerTrim(mapping[g]);
  }

  /** So it never fails where no two sources differ by case or outer space only. */
  lemma AliasRoundTrip(mapping: Mapping, target: string)
    requires Resolve(ReverseLookup(mapping), target).Some?
    requires forall s, t :: Usable(mapping, s) && Usable(mapping, t) && DirectKey(s) == DirectKey(t) ==> s == t
    ensures var source := Resolve(ReverseLookup(mapping), target).value;
            var back := Resolve(ForwardLookup(mapping), source);
            back.Some? && SameModel(back.value, target)
  {
    var s := SourceOfTarget(mapping, target);
    var g := SourceResolves(mapping, s);
    LowerTrim(mapping[s]);
  }

  lemma PlainLetter(c: char)
    requires 'a' <= c <= 'z'
    ensures TrimSpace([c]) == [c] && DirectKey([c]) == [c] && NormalKey([c]) == [c]
  {
    TrimSpaceTrimmed([c]);
    assert ToLower([c]) == [c];
    assert !StartsWithLabel([c]);
    assert Settled([c]);
    NormalizeFixesIff([c]);
  }

  /** A target with one source leads to it. */
  lemma OnlySource(mapping: Mapping, target: string, s: string)
    requires Usable(mapping, s) && DirectKey(mapping[s]) == DirectKey(target)
    requires forall t :: Usable(mapping, t) && DirectKey(mapping[t]) == DirectKey(target) ==> t == s
    ensures Resolve(ReverseLookup(mapping), target) == Some(TrimSpace(s))
  {
    hide Resolve, TrimSpace, DirectKey, NormalKey, Less, ReverseLookup;
    ResolveByTargetMeaning(mapping, target);
    assert TargetKeyIs(mapping, DirectKey(target))(s);
  }

  /** A source leads to the target of the greatest source of its folded name. */
  lemma GreatestSource(mapping: Mapping, s: string, g: string)
    requires Usable(mapping, s) && Greatest(mapping, KeyIs(DirectKey(s)), g)
    ensures Resolve(ForwardLookup(mapping), TrimSpace(s)) == Some(TrimSpace(mapping[g]))
  {
    hide Resolve, TrimSpace, DirectKey, Less, ForwardLookup;
    var h := SourceResolves(mapping, s);
    LessIsTotal();
    assert !(Less(g, h) && Less(h, g));
  }

  lemma CapitalA()
    ensures TrimSpace("A") == "A" && DirectKey("A") == "a" && Less("A", "a")
  {
    TrimSpaceTrimmed("A");
    assert ToLower("A") == "a";
  }

  /** Two sources that differ by case, with other targets: the way back leads to the greater one's. */
  lemma TwoCases(mapping: Mapping, s: string, g: string)
    requires mapping.Keys == {s, g} && Usable(mapping, s) && Usable(mapping, g)
    requires DirectKey(s) == DirectKey(g) && Less(s, g) && DirectKey(mapping[s]) != DirectKey(mapping[g])
    ensures Resolve(ReverseLookup(mapping), mapping[s]) == Some(TrimSpace(s))
    ensures Resolve(ForwardLookup(mapping), TrimSpace(s)) == Some(TrimSpace(mapping[g]))
  {
    hide TrimSpace, DirectKey, Resolve, Less, ForwardLookup, ReverseLookup;
    OnlySource(mapping, mapping[s], s);
    GreatestSource(mapping, s, g);
  }

  /** The target `x` leads to the source `A`, and `A` to the target `y`. */
  lemma RoundTripExample()
    ensures var mapping: Mapping := map["A" := "x", "a" := "y"];
            && Resolve(ReverseLookup(mapping), "x") == Some("A")
            && Resolve(ForwardLookup(mapping), "A") == Some("y") && !SameModel("y", "x")
  {
    hide TrimSpace, DirectKey, NormalKey, Resolve, Less, ForwardLookup, ReverseLookup;
    var mapping: Mapping := map["A" := "x", "a" := "y"];
    PlainLetter('x');
    PlainLetter('y');
    PlainLetter('a');
    CapitalA();
    TwoCases(mapping, "A", "a");
  }
}
