/** service/sync.go, RebuildProviderRoutes, and model/model_route.go, RebuildRoutesForProvider. */
module RouteRebuild {
  import opened Text
  import opened Wrappers
  import opened Routes
  import Tokens = ProviderTokens

  type TokenRow = Tokens.TokenRow

  /** A pricing row; the groups are None where the stored JSON does not parse. */
  datatype Pricing = Pricing(modelName: string, enableGroups: Option<seq<string>>)

  // ---------------------------------------------------------------- which routes there should be

  predicate InLimits(t: TokenRow, model: string) {
    t.modelLimits == [] || exists m :: m in Split(t.modelLimits, {','}) && TrimSpace(m) == model
  }

  predicate Priced(pricing: seq<Pricing>, group: string, model: string) {
    exists p :: p in pricing && p.modelName == model && p.enableGroups.Some? && group in p.enableGroups.value
  }

  /** The token may serve the model: the model is priced for the token's group and within the token's limits. */
  predicate Grants(t: TokenRow, pricing: seq<Pricing>, model: string) {
    Priced(pricing, t.groupName, model) && InLimits(t, model)
  }

  function DefaultRoute(t: TokenRow, model: string, provider: int): ModelRoute {
    ModelRoute(0, model, t.id, provider, true, t.priority, t.weight)
  }

  /** Exactly one route per granted pair of token and model, with the token's defaults. */
  ghost predicate IsGenerated(routes: seq<ModelRoute>, tokens: seq<TokenRow>, pricing: seq<Pricing>, provider: int) {
    && (forall i, j :: 0 <= i < j < |routes| ==>
          routes[i].modelName != routes[j].modelName || routes[i].tokenId != routes[j].tokenId)
    && (forall r :: r in routes ==>
          exists t :: t in tokens && Grants(t, pricing, r.modelName) && r == DefaultRoute(t, r.modelName, provider))
    && (forall t, m :: t in tokens && Grants(t, pricing, m) ==> DefaultRoute(t, m, provider) in routes)
  }

  function PairKey(model: string, token: int): string {
    model + ['|'] + Itoa(token)
  }

  lemma PairKeyIs(model: string, token: int)
    ensures PairKey(model, token) == model + ['|'] + Itoa(token)
  {
  }

  function RunnableTokens(rows: seq<TokenRow>, provider: int): seq<TokenRow> {
    if rows == [] then []
    else
      var init, r := RunnableTokens(rows[..|rows| - 1], provider), rows[|rows| - 1];
      if r.providerId == provider && r.status == 1 && Tokens.CanParticipateInRouting(r) then init + [r] else init
  }

  predicate Lists(groupModels: map<string, seq<string>>, group: string, model: string) {
    group in groupModels && model in groupModels[group]
  }

  lemma PricedStep(pricing: seq<Pricing>, p: Pricing, group: string, model: string)
    ensures Priced(pricing + [p], group, model)
       <==> || Priced(pricing, group, model)
            || (p.modelName == model && p.enableGroups.Some? && group in p.enableGroups.value)
  {
    if p.modelName == model && p.enableGroups.Some? && group in p.enableGroups.value {
      assert p in pricing + [p];
    }
    if Priced(pricing, group, model) {
      var q :| q in pricing && q.modelName == model && q.enableGroups.Some? && group in q.enableGroups.value;
      assert q in pricing + [p];
    }
  }

  /** One pricing row: its model goes to every group it names. */
  method AddToGroups(groupModels: map<string, seq<string>>, model: string, groups: seq<string>)
        returns (next: map<string, seq<string>>)
    ensures forall g, m :: Lists(next, g, m) <==> Lists(groupModels, g, m) || (m == model && g in groups)
  {
    next := groupModels;
    for j := 0 to |groups|
      invariant forall g, m :: Lists(next, g, m) <==> Lists(groupModels, g, m) || (m == model && g in groups[..j])
    {
      assert groups[..j + 1] == groups[..j] + [groups[j]];
      var g := groups[j];
      next := next[g := (if g in next then next[g] else []) + [model]];
    }
    assert groups[..|groups|] == groups;
  }

  /** Group to model names, in pricing order; a model may be named several times. */
  method GroupModels(pricing: seq<Pricing>) returns (groupModels: map<string, seq<string>>)
    ensures forall g, m :: Lists(groupModels, g, m) <==> Priced(pricing, g, m)
  {
    hide Lists, Priced;
    groupModels := map[];
    assert forall g, m :: !Lists(groupModels, g, m) && !Priced([], g, m) by { NothingPriced(); }
    for i := 0 to |pricing|
      invariant forall g, m :: Lists(groupModels, g, m) <==> Priced(pricing[..i], g, m)
    {
      var p := pricing[i];
      assert pricing[..i + 1] == pricing[..i] + [p];
      forall g, m {
        PricedStep(pricing[..i], p, g, m);
      }
      if p.enableGroups.None? {
        continue;
      }
      groupModels := AddToGroups(groupModels, p.modelName, p.enableGroups.value);
    }
    assert pricing[..|pricing|] == pricing;
  }

  lemma NothingPriced()
    ensures forall g, m :: !Lists(map[], g, m) && !Priced([], g, m)
  {
  }

  method AllowedModels(t: TokenRow) returns (allowed: Option<set<string>>)
    ensures forall m :: InLimits(t, m) <==> allowed.None? || m in allowed.value
  {
    if t.modelLimits == [] {
      return None;
    }
    var pieces := Split(t.modelLimits, {','});
    var names: set<string> := {};
    for i := 0 to |pieces|
      invariant forall m :: m in names <==> exists k :: 0 <= k < i && TrimSpace(pieces[k]) == m
    {
      names := names + {TrimSpace(pieces[i])};
    }
    forall m ensures InLimits(t, m) <==> m in names {
      if InLimits(t, m) {
        var q :| q in pieces && TrimSpace(q) == m;
        var k :| 0 <= k < |pieces| && pieces[k] == q;
      }
    }
    return Some(names);
  }

  /** The generation loops: the routes so far and the set of keys already used. */
  ghost predicate Progress(routes: seq<ModelRoute>, keys: set<string>, provider: int) {
    && (forall i, j :: 0 <= i < j < |routes| ==>
          routes[i].modelName != routes[j].modelName || routes[i].tokenId != routes[j].tokenId)
    && (forall r :: r in routes ==> PairKey(r.modelName, r.tokenId) in keys)
    && (forall k :: k in keys ==> exists r :: r in routes && PairKey(r.modelName, r.tokenId) == k)
  }

  lemma ProgressStep(routes: seq<ModelRoute>, keys: set<string>, provider: int, r: ModelRoute)
    requires Progress(routes, keys, provider) && PairKey(r.modelName, r.tokenId) !in keys
    ensures Progress(routes + [r], keys + {PairKey(r.modelName, r.tokenId)}, provider)
  {
    var next := routes + [r];
    forall q | q in next ensures PairKey(q.modelName, q.tokenId) in keys + {PairKey(r.modelName, r.tokenId)} {
    }
    forall k | k in keys + {PairKey(r.modelName, r.tokenId)}
      ensures exists q :: q in next && PairKey(q.modelName, q.tokenId) == k
    {
      if k in keys {
        var q :| q in routes && PairKey(q.modelName, q.tokenId) == k;
        assert q in next;
      } else {
        assert r in next;
      }
    }
  }

  /** The routes one token adds: one per named model within its limits whose pair is still free. */
  method AddTokenRoutes(routes: seq<ModelRoute>, keys: set<string>, t: TokenRow, models: seq<string>, provider: int)
      returns (next: seq<ModelRoute>, nextKeys: set<string>)
    requires Progress(routes, keys, provider) && forall r :: r in routes ==> r.tokenId != t.id
    ensures Progress(next, nextKeys, provider)
    ensures forall r :: r in next
                   <==> || r in routes
                        || (r.modelName in models && InLimits(t, r.modelName)
                            && r == DefaultRoute(t, r.modelName, provider))
  {
    hide InLimits, PairKey, Progress;
    var allowed := AllowedModels(t);
    next, nextKeys := routes, keys;
    for i := 0 to |models|
      invariant Progress(next, nextKeys, provider)
      invariant forall r :: r in next <==>
                  || r in routes
                  || (r.modelName in models[..i] && InLimits(t, r.modelName)
                      && r == DefaultRoute(t, r.modelName, provider))
    {
      assert models[..i + 1] == models[..i] + [models[i]];
      var modelName := models[i];
      if allowed.Some? && modelName !in allowed.value {
        continue;
      }
      var key := modelName + ['|'] + Itoa(t.id);
      var route := ModelRoute(0, modelName, t.id, provider, true, t.priority, t.weight);
      assert key == PairKey(modelName, t.id) by { PairKeyIs(modelName, t.id); }
      if key in nextKeys {
        TakenPair(next, nextKeys, provider, modelName, t.id);
        continue;
      }
      ProgressStep(next, nextKeys, provider, route);
      nextKeys := nextKeys + {key};
      next := next + [route];
    }
    assert models[..|models|] == models;
  }

  lemma TakenPair(routes: seq<ModelRoute>, keys: set<string>, provider: int, model: string, token: int)
    requires Progress(routes, keys, provider) && PairKey(model, token) in keys
    ensures exists r :: r in routes && r.modelName == model && r.tokenId == token
  {
    var r :| r in routes && PairKey(r.modelName, r.tokenId) == PairKey(model, token);
    NumberedNameInjective(r.modelName, r.tokenId, model, token, '|');
  }

  method GenerateRoutes(tokens: seq<TokenRow>, pricing: seq<Pricing>, provider: int) returns (routes: seq<ModelRoute>)
    requires forall i, j :: 0 <= i < j < |tokens| ==> tokens[i].id != tokens[j].id
    ensures IsGenerated(routes, tokens, pricing, provider)
  {
    hide InLimits, PairKey, Priced;
    var groupModels := GroupModels(pricing);
    routes := [];
    var keys: set<string> := {};
    for i := 0 to |tokens|
      invariant Progress(routes, keys, provider)
      invariant forall r :: r in routes ==>
                  exists k :: 0 <= k < i && Grants(tokens[k], pricing, r.modelName)
                              && r == DefaultRoute(tokens[k], r.modelName, provider)
      invariant forall k, m :: 0 <= k < i && Grants(tokens[k], pricing, m) ==>
                  DefaultRoute(tokens[k], m, provider) in routes
    {
      var t := tokens[i];
      assert forall m :: Lists(groupModels, t.groupName, m) <==> Priced(pricing, t.groupName, m);
      if t.groupName !in groupModels {
        continue;
      }
      ghost var before := routes;
      routes, keys := AddTokenRoutes(routes, keys, t, groupModels[t.groupName], provider);
      forall r | r in routes
        ensures exists k :: 0 <= k < i + 1 && Grants(tokens[k], pricing, r.modelName)
                            && r == DefaultRoute(tokens[k], r.modelName, provider)
      {
        if r !in before {
          assert Grants(tokens[i], pricing, r.modelName);
        }
      }
    }
  }

  // ---------------------------------------------------------------- replacing a provider's routes

  function RowKey(r: ModelRoute): string {
    PairKey(TrimSpace(r.modelName), r.tokenId)
  }

  function OfProvider(rows: seq<ModelRoute>, provider: int): seq<ModelRoute> {
    if rows == [] then []
    else
      var init, r := OfProvider(rows[..|rows| - 1], provider), rows[|rows| - 1];
      if r.providerId == provider then init + [r] else init
  }

  function OfOthers(rows: seq<ModelRoute>, provider: int): seq<ModelRoute> {
    if rows == [] then []
    else
      var init, r := OfOthers(rows[..|rows| - 1], provider), rows[|rows| - 1];
      if r.providerId == provider then init else init + [r]
  }

  /** The last existing row under a key. */
  function LastWithKey(existing: seq<ModelRoute>, key: string): (r: Option<ModelRoute>)
    ensures r.Some? ==> r.value in existing && RowKey(r.value) == key
    ensures r.None? ==> forall q :: q in existing ==> RowKey(q) != key
  {
    if existing == [] then None
    else
      var n := |existing| - 1;
      assert existing == existing[..n] + [existing[n]];
      if RowKey(existing[n]) == key then Some(existing[n]) else LastWithKey(existing[..n], key)
  }

  /** The admin-set fields come from the last existing row under the route's key, if there is one. */
  function Preserved(r: ModelRoute, existing: seq<ModelRoute>): ModelRoute {
    var previous := LastWithKey(existing, RowKey(r));
    if previous.None? then r
    else r.(enabled := previous.value.enabled, priority := previous.value.priority, weight := previous.value.weight)
  }

  /** The rows as inserted, with fresh ids. */
  function Inserted(routes: seq<ModelRoute>, existing: seq<ModelRoute>, nextId: int): (rows: seq<ModelRoute>)
    ensures |rows| == |routes|
  {
    seq(|routes|, i requires 0 <= i < |routes| => Preserved(routes[i], existing).(id := nextId + i))
  }

  const BATCH_SIZE := 50

  /** Where the transaction fails, if it does. */
  datatype Fault = NoFault | OnRead | OnDelete | OnBatch(batch: nat) | OnCommit

  /** The fault strikes: a batch fault only when there is such a batch. */
  predicate Strikes(f: Fault, n: nat) {
    match f
    case NoFault => false
    case OnBatch(k) => k * BATCH_SIZE < n
    case _ => true
  }

  class RouteTable {
    var rows: seq<ModelRoute>
    var nextId: int

    constructor ()
      ensures rows == [] && nextId == 1
    {
      rows, nextId := [], 1;
    }

    /** All or nothing: read, preserve, delete, insert in batches, commit; any fault rolls back. */
    method RebuildRoutesForProvider(provider: int, routes: seq<ModelRoute>, fault: Fault) returns (ok: bool)
      modifies this
      ensures ok <==> !Strikes(fault, |routes|)
      ensures ok ==>
                rows == OfOthers(old(rows), provider) + Inserted(routes, OfProvider(old(rows), provider), old(nextId))
                     && nextId == old(nextId) + |routes|
      ensures !ok ==> rows == old(rows) && nextId == old(nextId)
    {
      hide Preserved, OfOthers, OfProvider, RowKey;
      if fault == OnRead {
        return false;
      }
      var existing := OfProvider(rows, provider);
      var existingMap := ExistingMap(existing);
      var merged: seq<ModelRoute> := [];
      for i := 0 to |routes|
        invariant rows == old(rows) && nextId == old(nextId)
        invariant |merged| == i && forall j :: 0 <= j < i ==> merged[j] == Preserved(routes[j], existing)
      {
        var route := PreserveOne(routes[i], existing, existingMap);
        merged := merged + [route];
      }
      if fault == OnDelete {
        return false;
      }
      var inserted, table := InsertBatches(OfOthers(rows, provider), merged, nextId, fault);
      if !inserted || fault == OnCommit {
        return false;
      }
      assert table == OfOthers(rows, provider) + Inserted(routes, existing, nextId);
      rows := table;
      nextId := nextId + |routes|;
      return true;
    }
  }

  function Numbered(routes: seq<ModelRoute>, firstId: int): seq<ModelRoute> {
    seq(|routes|, i requires 0 <= i < |routes| => routes[i].(id := firstId + i))
  }

  /** The batches of fifty: every row once, in order, unless a batch fails. */
  method InsertBatches(others: seq<ModelRoute>, routes: seq<ModelRoute>, firstId: int, fault: Fault)
      returns (ok: bool, table: seq<ModelRoute>)
    ensures ok <==> !(fault.OnBatch? && Strikes(fault, |routes|))
    ensures ok ==> table == others + Numbered(routes, firstId)
  {
    table := others;
    var numbered := Numbered(routes, firstId);
    var start, batch := 0, 0;
    while start < |routes|
      invariant 0 <= start <= |routes| && 0 <= batch
      invariant || start == batch * BATCH_SIZE
                || (start == |routes| && (batch - 1) * BATCH_SIZE < |routes| <= batch * BATCH_SIZE)
      invariant table == others + numbered[..start]
      invariant fault.OnBatch? ==> fault.batch >= batch
      decreases |routes| - start
    {
      var end := if start + BATCH_SIZE > |routes| then |routes| else start + BATCH_SIZE;
      if fault == OnBatch(batch) {
        return false, table;
      }
      assert numbered[..end] == numbered[..start] + numbered[start..end];
      table := table + numbered[start..end];
      start := end;
      batch := batch + 1;
    }
    assert numbered[..|numbered|] == numbered;
    return true, table;
  }

  method ExistingMap(existing: seq<ModelRoute>) returns (m: map<string, ModelRoute>)
    ensures forall k :: match LastWithKey(existing, k)
                        case Some(r) => k in m && m[k] == r
                        case None => k !in m
  {
    hide PairKey, TrimSpace;
    m := map[];
    for i := 0 to |existing|
      invariant forall k :: match LastWithKey(existing[..i], k)
                            case Some(r) => k in m && m[k] == r
                            case None => k !in m
    {
      assert existing[..i + 1][..i] == existing[..i];
      PairKeyIs(TrimSpace(existing[i].modelName), existing[i].tokenId);
      m := m[TrimSpace(existing[i].modelName) + ['|'] + Itoa(existing[i].tokenId) := existing[i]];
    }
    assert existing[..|existing|] == existing;
  }

  method PreserveOne(r: ModelRoute, ghost existing: seq<ModelRoute>, existingMap: map<string, ModelRoute>)
        returns (route: ModelRoute)
    requires forall k :: match LastWithKey(existing, k)
                         case Some(q) => k in existingMap && existingMap[k] == q
                         case None => k !in existingMap
    ensures route == Preserved(r, existing)
  {
    route := r;
    var key := TrimSpace(r.modelName) + ['|'] + Itoa(r.tokenId);
    assert key == RowKey(r);
    hide RowKey;
    ghost var last := LastWithKey(existing, key);
    if key in existingMap {
      var previous := existingMap[key];
      route := route.(enabled := previous.enabled, priority := previous.priority, weight := previous.weight);
    }
  }

  /** The whole rebuild: generate from tokens and pricing, then replace. */
  method RebuildProviderRoutes(table: RouteTable, tokenRows: seq<TokenRow>, pricing: seq<Pricing>, provider: int,
                               fault: Fault)
      returns (ok: bool, ghost generated: seq<ModelRoute>)
    requires forall i, j :: 0 <= i < j < |tokenRows| ==> tokenRows[i].id != tokenRows[j].id
    modifies table
    ensures IsGenerated(generated, RunnableTokens(tokenRows, provider), pricing, provider)
    ensures ok ==>
              table.rows == OfOthers(old(table.rows), provider)
                            + Inserted(generated, OfProvider(old(table.rows), provider), old(table.nextId))
    ensures !ok ==> table.rows == old(table.rows)
  {
    hide IsGenerated, OfOthers, OfProvider, Inserted;
    RunnableDistinct(tokenRows, provider);
    var routes := GenerateRoutes(RunnableTokens(tokenRows, provider), pricing, provider);
    generated := routes;
    ok := table.RebuildRoutesForProvider(provider, routes, fault);
  }

  lemma {:induction false} RunnableDistinct(rows: seq<TokenRow>, provider: int)
    requires forall i, j :: 0 <= i < j < |rows| ==> rows[i].id != rows[j].id
    ensures forall t :: t in RunnableTokens(rows, provider)
                   <==> t in rows && t.providerId == provider && t.status == 1 && Tokens.CanParticipateInRouting(t)
    ensures forall i, j :: 0 <= i < j < |RunnableTokens(rows, provider)| ==>
              RunnableTokens(rows, provider)[i].id != RunnableTokens(rows, provider)[j].id
  {
    hide Tokens.CanParticipateInRouting;
    if rows != [] {
      var init, last := rows[..|rows| - 1], rows[|rows| - 1];
      RunnableDistinct(init, provider);
      assert rows == init + [last];
      forall t | t in RunnableTokens(init, provider) ensures t.id != last.id {
        var i :| 0 <= i < |init| && init[i] == t;
        assert rows[i] == t;
      }
    }
  }

  // ---------------------------------------------------------------- what a rebuild promises

  lemma {:induction false} SplitAppend(a: seq<ModelRoute>, b: seq<ModelRoute>, provider: int)
    ensures OfProvider(a + b, provider) == OfProvider(a, provider) + OfProvider(b, provider)
    ensures OfOthers(a + b, provider) == OfOthers(a, provider) + OfOthers(b, provider)
  {
    if b == [] {
      assert a + b == a;
    } else {
      var init, last := b[..|b| - 1], b[|b| - 1];
      SplitAppend(a, init, provider);
      assert (a + b)[..|a + b| - 1] == a + init;
      if last.providerId == provider {
        assert OfProvider(a + b, provider) == OfProvider(a, provider) + OfProvider(init, provider) + [last];
      } else {
        assert OfOthers(a + b, provider) == OfOthers(a, provider) + OfOthers(init, provider) + [last];
      }
    }
  }

  lemma {:induction false} PartMembers(rows: seq<ModelRoute>, provider: int)
    ensures forall r :: r in OfOthers(rows, provider) <==> r in rows && r.providerId != provider
    ensures forall r :: r in OfProvider(rows, provider) <==> r in rows && r.providerId == provider
  {
    hide OfProvider, OfOthers;
    if rows == [] {
      NoParts(provider);
    } else {
      var init, last := rows[..|rows| - 1], rows[|rows| - 1];
      PartMembers(init, provider);
      assert rows == init + [last];
      PureStep(init, last, provider);
    }
  }

  lemma {:induction false} OnePart(rows: seq<ModelRoute>, provider: int)
    ensures (forall r :: r in rows ==> r.providerId == provider) ==>
              OfProvider(rows, provider) == rows && OfOthers(rows, provider) == []
    ensures (forall r :: r in rows ==> r.providerId != provider) ==>
              OfProvider(rows, provider) == [] && OfOthers(rows, provider) == rows
  {
    hide OfProvider, OfOthers;
    if rows == [] {
      NoParts(provider);
    } else {
      var init, last := rows[..|rows| - 1], rows[|rows| - 1];
      OnePart(init, provider);
      assert rows == init + [last] && last in rows;
      PureStep(init, last, provider);
    }
  }

  lemma NoParts(provider: int)
    ensures OfProvider([], provider) == [] && OfOthers([], provider) == []
  {
  }

  lemma PureStep(init: seq<ModelRoute>, last: ModelRoute, provider: int)
    ensures OfProvider(init + [last], provider)
         == OfProvider(init, provider) + (if last.providerId == provider then [last] else [])
    ensures OfOthers(init + [last], provider)
         == OfOthers(init, provider) + (if last.providerId == provider then [] else [last])
    ensures forall r :: r in init + [last] <==> r in init || r == last
  {
    assert (init + [last])[..|init|] == init;
  }

  /**
   * After a rebuild the other providers' rows are what they were, in order, and the provider's are the inserted ones.
   */
  lemma RebuiltTable(rows: seq<ModelRoute>, provider: int, inserted: seq<ModelRoute>)
    requires forall r :: r in inserted ==> r.providerId == provider
    ensures var next := OfOthers(rows, provider) + inserted;
            OfOthers(next, provider) == OfOthers(rows, provider) && OfProvider(next, provider) == inserted
  {
    hide OfOthers, OfProvider;
    PartMembers(rows, provider);
    OnePart(OfOthers(rows, provider), provider);
    OnePart(inserted, provider);
    SplitAppend(OfOthers(rows, provider), inserted, provider);
  }

  predicate SameSettings(a: ModelRoute, b: ModelRoute) {
    a.enabled == b.enabled && a.priority == b.priority && a.weight == b.weight
  }

  predicate SamePair(a: ModelRoute, b: ModelRoute) {
    a.modelName == b.modelName && a.tokenId == b.tokenId
  }

  /** Names of one token that differ in outer white space at most. */
  predicate SameTrimmed(a: ModelRoute, b: ModelRoute) {
    TrimSpace(a.modelName) == TrimSpace(b.modelName) && a.tokenId == b.tokenId
  }

  /** Every rebuilt row carries the settings of each old row of its model and token. */
  ghost predicate KeepsSettings(existing: seq<ModelRoute>, rebuilt: seq<ModelRoute>) {
    forall before, after :: before in existing && after in rebuilt && SamePair(before, after) ==>
      SameSettings(before, after)
  }

  predicate Regenerated(r: ModelRoute, routes: seq<ModelRoute>) {
    exists n :: 0 <= n < |routes| && SamePair(r, routes[n])
  }

  /** No later row of the same token has a name that trims alike. */
  ghost predicate LastOfName(existing: seq<ModelRoute>, j: nat) {
    j < |existing| && forall k :: j < k < |existing| ==> !SameTrimmed(existing[k], existing[j])
  }

  lemma RowKeyIff(a: ModelRoute, b: ModelRoute)
    ensures RowKey(a) == RowKey(b) <==> SameTrimmed(a, b)
  {
    NumberedNameInjective(TrimSpace(a.modelName), a.tokenId, TrimSpace(b.modelName), b.tokenId, '|');
  }

  lemma {:induction false} LastWithKeyIndex(existing: seq<ModelRoute>, r: ModelRoute) returns (j: nat)
    requires LastWithKey(existing, RowKey(r)).Some?
    ensures LastOfName(existing, j) && SameTrimmed(existing[j], r)
    ensures LastWithKey(existing, RowKey(r)) == Some(existing[j])
  {
    hide RowKey;
    var n := |existing| - 1;
    RowKeyIff(existing[n], r);
    if SameTrimmed(existing[n], r) {
      j := n;
    } else {
      j := LastWithKeyIndex(existing[..n], r);
    }
  }

  /** The row rebuilt for a route whose model and token had a row before. */
  lemma RebuiltSettings(routes: seq<ModelRoute>, existing: seq<ModelRoute>, nextId: int, n: nat, i: nat)
        returns (j: nat)
    requires n < |routes| && i < |existing| && SamePair(existing[i], routes[n])
    ensures LastOfName(existing, j) && SameTrimmed(existing[i], existing[j])
    ensures SameSettings(Inserted(routes, existing, nextId)[n], existing[j])
    ensures SamePair(existing[i], Inserted(routes, existing, nextId)[n])
  {
    hide RowKey, TrimSpace;
    RowKeyIff(existing[i], routes[n]);
    j := LastWithKeyIndex(existing, routes[n]);
  }

  lemma OneLast(existing: seq<ModelRoute>, i: nat, j: nat)
    requires LastOfName(existing, i) && LastOfName(existing, j) && SameTrimmed(existing[i], existing[j])
    ensures i == j
  {
    hide TrimSpace;
  }

  /**
   * A rebuild keeps all settings exactly when every old row whose model and token are generated again has the
   * settings of the last old row of that token whose name trims alike.
   */
  lemma SettingsKeptIff(rows: seq<ModelRoute>, nextId: int, routes: seq<ModelRoute>, provider: int)
    requires forall r :: r in routes ==> r.providerId == provider
    ensures var existing := OfProvider(rows, provider);
            var next := OfOthers(rows, provider) + Inserted(routes, existing, nextId);
            KeepsSettings(existing, OfProvider(next, provider))
            <==> forall i, j :: 0 <= i < |existing| && 0 <= j < |existing| && Regenerated(existing[i], routes)
                                && LastOfName(existing, j) && SameTrimmed(existing[i], existing[j])
                                ==> SameSettings(existing[i], existing[j])
  {
    hide OfProvider, OfOthers, LastOfName, SameTrimmed, SamePair, SameSettings, Inserted;
    var existing := OfProvider(rows, provider);
    var rebuilt := Inserted(routes, existing, nextId);
    OwnRows(routes, existing, nextId, provider);
    RebuiltTable(rows, provider, rebuilt);
    if KeepsSettings(existing, rebuilt) {
      forall i, j | 0 <= i < |existing| && 0 <= j < |existing| && Regenerated(existing[i], routes)
                    && LastOfName(existing, j) && SameTrimmed(existing[i], existing[j])
        ensures SameSettings(existing[i], existing[j])
      {
        var n :| 0 <= n < |routes| && SamePair(existing[i], routes[n]);
        var l := RebuiltSettings(routes, existing, nextId, n, i);
        LastsAgree(existing, i, j, l);
        assert rebuilt[n] in rebuilt && existing[i] in existing;
        SettingsChain(existing[i], rebuilt[n], existing[l]);
      }
    }
    if forall i, j :: 0 <= i < |existing| && 0 <= j < |existing| && Regenerated(existing[i], routes)
                      && LastOfName(existing, j) && SameTrimmed(existing[i], existing[j])
                      ==> SameSettings(existing[i], existing[j]) {
      forall before, after | before in existing && after in rebuilt && SamePair(before, after)
        ensures SameSettings(before, after)
      {
        var i :| 0 <= i < |existing| && existing[i] == before;
        var n :| 0 <= n < |rebuilt| && rebuilt[n] == after;
        RebuiltPair(routes, existing, nextId, n);
        PairOf(before, routes[n], after);
        var l := RebuiltSettings(routes, existing, nextId, n, i);
        assert LastOfName(existing, l) && l < |existing| by { LastInRange(existing, l); }
        assert Regenerated(existing[i], routes);
        SettingsChain(before, existing[l], after);
      }
    }
  }

  lemma LastInRange(existing: seq<ModelRoute>, j: nat)
    requires LastOfName(existing, j)
    ensures j < |existing|
  {
  }

  lemma LastsAgree(existing: seq<ModelRoute>, i: nat, j: nat, l: nat)
    requires i < |existing| && LastOfName(existing, j) && LastOfName(existing, l)
    requires SameTrimmed(existing[i], existing[j]) && SameTrimmed(existing[i], existing[l])
    ensures j == l
  {
    hide TrimSpace;
    OneLast(existing, j, l);
  }

  lemma SettingsChain(a: ModelRoute, b: ModelRoute, c: ModelRoute)
    ensures SameSettings(a, b) && (SameSettings(b, c) || SameSettings(c, b)) ==> SameSettings(a, c)
  {
  }

  lemma RebuiltPair(routes: seq<ModelRoute>, existing: seq<ModelRoute>, nextId: int, n: nat)
    requires n < |routes|
    ensures SamePair(routes[n], Inserted(routes, existing, nextId)[n])
  {
  }

  lemma PairOf(a: ModelRoute, b: ModelRoute, c: ModelRoute)
    requires SamePair(a, c) && SamePair(b, c)
    ensures SamePair(a, b)
  {
  }

  /** So settings are kept wherever no later old row of a regenerated name has other settings. */
  lemma SettingsKeptWithoutLaterChange(rows: seq<ModelRoute>, nextId: int, routes: seq<ModelRoute>, provider: int)
    requires forall r :: r in routes ==> r.providerId == provider
    requires var existing := OfProvider(rows, provider);
             forall i, j :: 0 <= i < j < |existing|
                            && Regenerated(existing[i], routes) && SameTrimmed(existing[i], existing[j])
                            ==> SameSettings(existing[i], existing[j])
    ensures var existing := OfProvider(rows, provider);
            KeepsSettings(existing, OfProvider(OfOthers(rows, provider) + Inserted(routes, existing, nextId), provider))
  {
    hide OfProvider, OfOthers, Inserted, KeepsSettings, TrimSpace;
    SettingsKeptIff(rows, nextId, routes, provider);
  }

  /** A rebuilt name that only white space tells apart from another takes that other row's settings. */
  lemma SettingsLostExample() returns (routes: seq<ModelRoute>, existing: seq<ModelRoute>)
    ensures |existing| == 2 && existing[0].modelName == " m" && existing[1].modelName == "m"
    ensures !KeepsSettings(existing, Inserted(routes, existing, 3))
  {
    var r := ModelRoute(0, " m", 1, 1, true, 0, 10);
    var kept, other := ModelRoute(1, " m", 1, 1, false, 5, 10), ModelRoute(2, "m", 1, 1, true, 0, 10);
    routes, existing := [r], [kept, other];
    assert TrimLeft(" m") == TrimLeft("m") by { assert " m"[1..] == "m"; }
    assert RowKey(other) == RowKey(r);
    assert LastWithKey(existing, RowKey(r)) == Some(other);
    var rebuilt := Inserted(routes, existing, 3);
    assert rebuilt[0] in rebuilt && existing[0] in existing;
    assert SamePair(existing[0], rebuilt[0]) && !SameSettings(existing[0], rebuilt[0]);
  }

  /** A later row with other settings does no harm when an even later one restores them: only the last one counts. */
  lemma MiddleRowExample() returns (routes: seq<ModelRoute>, existing: seq<ModelRoute>)
    ensures |existing| == 3 && Regenerated(existing[0], routes)
    ensures SameTrimmed(existing[0], existing[1]) && !SameSettings(existing[0], existing[1])
    ensures KeepsSettings(existing, Inserted(routes, existing, 4))
  {
    var r := ModelRoute(0, " m", 1, 1, true, 0, 10);
    var first, last := ModelRoute(1, " m", 1, 1, false, 5, 10), ModelRoute(3, "m ", 1, 1, false, 5, 10);
    var middle := ModelRoute(2, "m", 1, 1, true, 0, 10);
    routes, existing := [r], [first, middle, last];
    assert TrimLeft(" m") == TrimLeft("m") by { assert " m"[1..] == "m"; }
    assert TrimRight("m ") == TrimRight("m") by { assert "m "[..1] == "m"; }
    assert RowKey(last) == RowKey(r);
    assert LastWithKey(existing, RowKey(r)) == Some(last);
    assert SamePair(existing[0], routes[0]);
  }

  /** A row rebuilt for a token and model without an old row carries the token's own settings, and is enabled. */
  lemma NewRowSettings(routes: seq<ModelRoute>, tokens: seq<TokenRow>, pricing: seq<Pricing>, provider: int,
                       existing: seq<ModelRoute>, nextId: int, n: nat)
    requires IsGenerated(routes, tokens, pricing, provider) && n < |routes|
    requires forall q :: q in existing ==> !SameTrimmed(q, routes[n])
    ensures var row := Inserted(routes, existing, nextId)[n];
            && row.id == nextId + n && row.providerId == provider && row.modelName == routes[n].modelName
            && exists t :: t in tokens && t.id == row.tokenId && Grants(t, pricing, row.modelName)
                           && row.enabled && row.priority == t.priority && row.weight == t.weight
  {
    hide Grants, RowKey;
    var r := routes[n];
    assert r in routes;
    if LastWithKey(existing, RowKey(r)).Some? {
      RowKeyIff(LastWithKey(existing, RowKey(r)).value, r);
    }
  }

  /** Every token of the provider that may serve a priced model within its limits has its row after a rebuild. */
  lemma GrantedRowExists(routes: seq<ModelRoute>, tokenRows: seq<TokenRow>, pricing: seq<Pricing>, provider: int,
                         rows: seq<ModelRoute>, nextId: int, t: TokenRow, p: Pricing)
    requires IsGenerated(routes, RunnableTokens(tokenRows, provider), pricing, provider)
    requires forall i, j :: 0 <= i < j < |tokenRows| ==> tokenRows[i].id != tokenRows[j].id
    requires t in tokenRows && t.providerId == provider && t.status == 1 && Tokens.IsUsableKey(t.key.skKey)
    requires p in pricing && p.enableGroups.Some? && t.groupName in p.enableGroups.value
    requires t.modelLimits == [] || exists m :: m in Split(t.modelLimits, {','}) && TrimSpace(m) == p.modelName
    ensures var next := OfOthers(rows, provider) + Inserted(routes, OfProvider(rows, provider), nextId);
            exists row ::
              row in next && row.providerId == provider && row.tokenId == t.id && row.modelName == p.modelName
  {
    hide Tokens.IsUsableKey, OfOthers, OfProvider, Inserted, RunnableTokens, Tokens.IsKeyReady, TrimSpace, Split;
    Tokens.ReadyIff(t.key);
    RunnableDistinct(tokenRows, provider);
    assert Grants(t, pricing, p.modelName);
    var n :| 0 <= n < |routes| && routes[n] == DefaultRoute(t, p.modelName, provider);
    var inserted := Inserted(routes, OfProvider(rows, provider), nextId);
    SamePlace(routes, OfProvider(rows, provider), nextId, n);
    assert inserted[n] in OfOthers(rows, provider) + inserted;
  }

  lemma SamePlace(routes: seq<ModelRoute>, existing: seq<ModelRoute>, nextId: int, n: nat)
    requires n < |routes|
    ensures var row := Inserted(routes, existing, nextId)[n];
            row.providerId == routes[n].providerId && row.tokenId == routes[n].tokenId
            && row.modelName == routes[n].modelName
  {
  }

  function WithoutId(r: ModelRoute): ModelRoute {
    r.(id := 0)
  }

  lemma LastWithKeySnoc(rows: seq<ModelRoute>, r: ModelRoute, key: string)
    ensures LastWithKey(rows + [r], key) == if RowKey(r) == key then Some(r) else LastWithKey(rows, key)
  {
    assert (rows + [r])[..|rows|] == rows;
  }

  lemma InsertedAt(routes: seq<ModelRoute>, existing: seq<ModelRoute>, nextId: int, n: nat)
    requires n < |routes|
    ensures var rows := Inserted(routes, existing, nextId);
            && rows[..n + 1] == rows[..n] + [Preserved(routes[n], existing).(id := nextId + n)]
            && RowKey(Preserved(routes[n], existing).(id := nextId + n)) == RowKey(routes[n])
  {
    KeyKept(routes[n], existing, nextId + n);
    hide Preserved, RowKey;
    var rows := Inserted(routes, existing, nextId);
    assert rows[n] == Preserved(routes[n], existing).(id := nextId + n);
  }

  lemma KeyKept(r: ModelRoute, existing: seq<ModelRoute>, id: int)
    ensures RowKey(Preserved(r, existing).(id := id)) == RowKey(r)
  {
    hide TrimSpace, PairKey, LastWithKey;
  }

  lemma {:induction false} LastSettings(routes: seq<ModelRoute>, existing: seq<ModelRoute>, nextId: int, n: nat, i: nat)
    requires i < |routes| && n <= |routes|
    requires forall a, b :: a in routes && b in routes && a.tokenId == b.tokenId ==> SameSettings(a, b)
    ensures var last := LastWithKey(Inserted(routes, existing, nextId)[..n], RowKey(routes[i]));
            last.Some? ==> SameSettings(last.value, Preserved(routes[i], existing))
  {
    hide SameSettings, Preserved, RowKey, LastWithKey, Inserted;
    var rows := Inserted(routes, existing, nextId);
    if n == 0 {
      assert rows[..0] == [] && LastWithKey([], RowKey(routes[i])) == None by { NoneInEmpty(RowKey(routes[i])); }
    } else {
      var last := Preserved(routes[n - 1], existing).(id := nextId + (n - 1));
      LastSettings(routes, existing, nextId, n - 1, i);
      InsertedAt(routes, existing, nextId, n - 1);
      LastWithKeySnoc(rows[..n - 1], last, RowKey(routes[i]));
      if RowKey(routes[n - 1]) == RowKey(routes[i]) {
        SameKeySameSettings(routes[n - 1], routes[i], routes, existing, nextId + (n - 1));
      }
    }
  }

  lemma NoneInEmpty(key: string)
    ensures LastWithKey([], key) == None
  {
  }

  lemma SameKeySameSettings(r: ModelRoute, q: ModelRoute, routes: seq<ModelRoute>, existing: seq<ModelRoute>, id: int)
    requires r in routes && q in routes && RowKey(r) == RowKey(q)
    requires forall a, b :: a in routes && b in routes && a.tokenId == b.tokenId ==> SameSettings(a, b)
    ensures SameSettings(Preserved(r, existing).(id := id), Preserved(q, existing))
  {
    NumberedNameInjective(TrimSpace(r.modelName), r.tokenId, TrimSpace(q.modelName), q.tokenId, '|');
    assert SameSettings(r, q);
  }

  lemma GeneratedSettings(routes: seq<ModelRoute>, tokens: seq<TokenRow>, pricing: seq<Pricing>, provider: int)
    requires IsGenerated(routes, tokens, pricing, provider)
    requires forall i, j :: 0 <= i < j < |tokens| ==> tokens[i].id != tokens[j].id
    ensures forall a, b :: a in routes && b in routes && a.tokenId == b.tokenId ==> SameSettings(a, b)
    ensures forall r :: r in routes ==> r.providerId == provider
  {
    hide Grants;
  }

  /** Rebuilding again from the same tokens and pricing changes nothing but the row ids. */
  lemma RebuildIdempotent(rows: seq<ModelRoute>, nextId: int, routes: seq<ModelRoute>, tokens: seq<TokenRow>,
                          pricing: seq<Pricing>, provider: int)
    requires IsGenerated(routes, tokens, pricing, provider)
    requires forall i, j :: 0 <= i < j < |tokens| ==> tokens[i].id != tokens[j].id
    ensures var first := OfOthers(rows, provider) + Inserted(routes, OfProvider(rows, provider), nextId);
            var second := OfOthers(first, provider) + Inserted(routes, OfProvider(first, provider), nextId + |routes|);
            && |second| == |first|
            && OfOthers(second, provider) == OfOthers(first, provider) == OfOthers(rows, provider)
            && forall i :: 0 <= i < |first| ==> WithoutId(second[i]) == WithoutId(first[i])
  {
    hide IsGenerated, OfOthers, OfProvider, SameSettings, Preserved, RowKey;
    GeneratedSettings(routes, tokens, pricing, provider);
    var existing := OfProvider(rows, provider);
    var inserted := Inserted(routes, existing, nextId);
    OwnRows(routes, existing, nextId, provider);
    RebuiltTable(rows, provider, inserted);
    var first := OfOthers(rows, provider) + inserted;
    var again := Inserted(routes, inserted, nextId + |routes|);
    OwnRows(routes, inserted, nextId + |routes|, provider);
    RebuiltTable(first, provider, again);
    forall i | 0 <= i < |routes| ensures WithoutId(again[i]) == WithoutId(inserted[i]) {
      assert inserted[..|routes|] == inserted;
      LastSettings(routes, existing, nextId, |routes|, i);
      KeyPresent(routes, existing, nextId, i);
      SecondPreserve(routes[i], existing, inserted);
    }
  }

  lemma OwnRows(routes: seq<ModelRoute>, existing: seq<ModelRoute>, nextId: int, provider: int)
    requires forall r :: r in routes ==> r.providerId == provider
    ensures forall r :: r in Inserted(routes, existing, nextId) ==> r.providerId == provider
  {
    forall i | 0 <= i < |routes| ensures Inserted(routes, existing, nextId)[i].providerId == provider {
      assert routes[i] in routes;
    }
  }

  lemma KeyPresent(routes: seq<ModelRoute>, existing: seq<ModelRoute>, nextId: int, i: nat)
    requires i < |routes|
    ensures LastWithKey(Inserted(routes, existing, nextId), RowKey(routes[i])).Some?
  {
    var rows := Inserted(routes, existing, nextId);
    assert rows[i] in rows && RowKey(rows[i]) == RowKey(routes[i]);
  }

  lemma SecondPreserve(r: ModelRoute, existing: seq<ModelRoute>, inserted: seq<ModelRoute>)
    requires LastWithKey(inserted, RowKey(r)).Some?
    requires SameSettings(LastWithKey(inserted, RowKey(r)).value, Preserved(r, existing))
    ensures WithoutId(Preserved(r, inserted)) == WithoutId(Preserved(r, existing))
  {
  }
}
