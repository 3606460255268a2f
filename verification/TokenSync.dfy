/**
 * service/sync.go: token reconciliation, and the row writers of model/provider_token.go that it drives.
 * Upstream answers are inputs.
 */
module TokenSync {
  import opened Text
  import opened Wrappers
  import opened Sorting
  import opened ProviderTokens

  datatype KeyFetchError = Unauthorized | Unavailable | RequestFailed | OtherError

  /** A listed upstream token together with what the two recovery endpoints would answer for it. */
  datatype UpstreamToken = UpstreamToken(
    id: int,
    key: string,
    groupName: string,
    status: int,
    modelLimits: string,
    plaintext: Result<string, KeyFetchError>,
    detail: Option<string>)

  datatype Provider = Provider(id: int, priority: int, weight: int)

  const CODE_UNAUTHORIZED := "key_endpoint_unauthorized"
  const CODE_UNAVAILABLE := "key_endpoint_unavailable"
  const CODE_REQUEST_FAILED := "key_endpoint_request_failed"

  function ReasonForFetchError(e: KeyFetchError): string {
    match e
    case Unauthorized => CODE_UNAUTHORIZED
    case Unavailable => CODE_UNAVAILABLE
    case RequestFailed => CODE_REQUEST_FAILED
    case OtherError => PLAINTEXT_NOT_RECOVERED
  }

  function ReasonForExisting(existing: Option<TokenRow>): string {
    if existing.None? then PLAINTEXT_NOT_RECOVERED
    else if TrimSpace(existing.value.key.reason) != [] then existing.value.key.reason
    else if ClassifyKeyMaterial(existing.value.key.skKey) == Masked then LEGACY_CONTAMINATED
    else PLAINTEXT_NOT_RECOVERED
  }

  // ---------------------------------------------------------------- one token

  /** The key the gateway ends up with for an upstream token: listed, fetched, detailed, kept, or none. */
  function ReconciledKey(u: UpstreamToken, existing: Option<TokenRow>): KeyState {
    if IsUsableKey(u.key) then KeyState(NormalizeKeyForStorage(u.key), READY, [])
    else if u.plaintext.Ok? && IsUsableKey(u.plaintext.value) then
      KeyState(NormalizeKeyForStorage(u.plaintext.value), READY, [])
    else if u.detail.Some? && IsUsableKey(u.detail.value) then
      KeyState(NormalizeKeyForStorage(u.detail.value), READY, [])
    else if existing.Some? && IsKeyReady(existing.value.key) then
      KeyState(NormalizeKeyForStorage(existing.value.key.skKey), READY, [])
    else
      var fetched := if u.plaintext.Err? then ReasonForFetchError(u.plaintext.error) else PLAINTEXT_NOT_RECOVERED;
      var reason := if fetched == PLAINTEXT_NOT_RECOVERED then ReasonForExisting(existing) else fetched;
      KeyState([], UNRESOLVED, DefaultUnresolvedReason(reason, []))
  }

  /** `First` on the table in primary-key order. */
  function FindRow(rows: seq<TokenRow>, provider: int, upstream: int): (r: Option<nat>)
    ensures r.Some? ==>
              r.value < |rows| && rows[r.value].providerId == provider && rows[r.value].upstreamTokenId == upstream
    ensures r.Some? ==>
              forall j :: 0 <= j < r.value ==> !(rows[j].providerId == provider && rows[j].upstreamTokenId == upstream)
    ensures r.None? ==>
              forall j :: 0 <= j < |rows| ==> !(rows[j].providerId == provider && rows[j].upstreamTokenId == upstream)
  {
    if rows == [] then None
    else if rows[0].providerId == provider && rows[0].upstreamTokenId == upstream then Some(0)
    else
      var rest := FindRow(rows[1..], provider, upstream);
      if rest.Some? then Some(rest.value + 1) else None
  }

  function Existing(rows: seq<TokenRow>, provider: int, upstream: int): Option<TokenRow> {
    var at := FindRow(rows, provider, upstream);
    if at.Some? then Some(rows[at.value]) else None
  }

  function SyncedRow(p: Provider, u: UpstreamToken, rowId: int, existing: Option<TokenRow>): TokenRow {
    TokenRow(rowId, p.id, u.id, ResolvePersistenceState(ReconciledKey(u, existing)), u.groupName, u.status,
             p.priority, p.weight, u.modelLimits)
  }

  /** The table after one listed token has been reconciled and stored. */
  function SyncOne(rows: seq<TokenRow>, nextId: int, p: Provider, u: UpstreamToken): (seq<TokenRow>, int) {
    var at := FindRow(rows, p.id, u.id);
    if at.Some? then (rows[at.value := SyncedRow(p, u, rows[at.value].id, Some(rows[at.value]))], nextId)
    else (rows + [SyncedRow(p, u, nextId, None)], nextId + 1)
  }

  function SyncAll(rows: seq<TokenRow>, nextId: int, p: Provider, tokens: seq<UpstreamToken>): (seq<TokenRow>, int) {
    if tokens == [] then (rows, nextId)
    else
      var (r, n) := SyncAll(rows, nextId, p, tokens[..|tokens| - 1]);
      SyncOne(r, n, p, tokens[|tokens| - 1])
  }

  function Ids(tokens: seq<UpstreamToken>): set<int> {
    set u | u in tokens :: u.id
  }

  /** What the cleanup keeps: other providers' rows, and this provider's listed ones. */
  function Cleanup(rows: seq<TokenRow>, provider: int, listed: set<int>): seq<TokenRow> {
    if rows == [] then []
    else
      var rest := Cleanup(rows[1..], provider, listed);
      if rows[0].providerId == provider && rows[0].upstreamTokenId !in listed then rest else [rows[0]] + rest
  }

  /** How a pass ends: in full, with its cleanup failing, or at the token whose row cannot be read or stored. */
  datatype Ending = Whole | NoCleanup | AbortedAt(token: nat)

  predicate Aborts(ending: Ending, tokens: seq<UpstreamToken>) {
    ending.AbortedAt? && ending.token < |tokens|
  }

  /** The tokens that a pass gets to. */
  function Stored(ending: Ending, tokens: seq<UpstreamToken>): seq<UpstreamToken> {
    if Aborts(ending, tokens) then tokens[..ending.token] else tokens
  }

  /** A failed cleanup is only logged; an error on a token ends the pass there and then. */
  function SyncPass(rows: seq<TokenRow>, nextId: int, p: Provider, tokens: seq<UpstreamToken>,
                    ending: Ending): (seq<TokenRow>, int) {
    var (r, n) := SyncAll(rows, nextId, p, Stored(ending, tokens));
    (if ending == NoCleanup || Aborts(ending, tokens) then r else Cleanup(r, p.id, Ids(tokens)), n)
  }

  datatype Summary = Summary(total: nat, readyCount: nat, unresolvedCount: nat)

  /** The token table, with its auto-increment counter. */
  class TokenTable {
    var rows: seq<TokenRow>
    var nextId: int

    constructor ()
      ensures rows == [] && nextId == 1
    {
      rows, nextId := [], 1;
    }

    method Upsert(pt: ProviderToken)
      modifies this, pt`id
      ensures pt.Key() == old(pt.Key())
      ensures var at := FindRow(old(rows), pt.providerId, pt.upstreamTokenId);
              if at.Some? then rows == old(rows)[at.value := pt.Row(old(rows)[at.value].id)] && nextId == old(nextId)
              else rows == old(rows) + [pt.Row(old(nextId))] && nextId == old(nextId) + 1
    {
      var at := FindRow(rows, pt.providerId, pt.upstreamTokenId);
      if at.Some? {
        pt.id := rows[at.value].id;
        rows := rows[at.value := pt.Row(pt.id)];
        return;
      }
      pt.id := nextId;
      rows := rows + [pt.Row(nextId)];
      nextId := nextId + 1;
    }

    method DeleteNotInIds(providerId: int, upstreamIds: seq<int>)
      modifies `rows
      ensures rows == Cleanup(old(rows), providerId, set i | i in upstreamIds)
    {
      var kept: seq<TokenRow> := [];
      ghost var listed := set i | i in upstreamIds;
      for i := 0 to |rows|
        invariant rows == old(rows)
        invariant kept + Cleanup(rows[i..], providerId, listed) == Cleanup(rows, providerId, listed)
      {
        assert rows[i..][1..] == rows[i + 1..];
        if rows[i].providerId != providerId || rows[i].upstreamTokenId in upstreamIds {
          kept := kept + [rows[i]];
        }
      }
      rows := kept;
    }

    /** Every row is brought to normal form; rows already there are not written. */
    method BackfillKeyState() returns (updated: bool)
      modifies `rows
      ensures rows == Backfilled(old(rows))
      ensures updated <==> exists j :: 0 <= j < |old(rows)| && rows[j] != old(rows)[j]
    {
      hide ResolvePersistenceState;
      updated := false;
      for i := 0 to |rows|
        invariant |rows| == |old(rows)|
        invariant forall j :: 0 <= j < i ==> rows[j] == Backfilled(old(rows))[j]
        invariant forall j :: i <= j < |rows| ==> rows[j] == old(rows)[j]
        invariant updated <==> exists j :: 0 <= j < i && rows[j] != old(rows)[j]
      {
        var normalized := ResolvePersistenceState(rows[i].key);
        if rows[i].key == normalized {
          assert rows[i].(key := normalized) == rows[i];
          continue;
        }
        rows := rows[i := rows[i].(key := normalized)];
        assert rows[i] != old(rows)[i];
        updated := true;
      }
    }
  }

  function Backfilled(rows: seq<TokenRow>): seq<TokenRow> {
    seq(|rows|, i requires 0 <= i < |rows| => rows[i].(key := ResolvePersistenceState(rows[i].key)))
  }

  /** The recovery chain for one upstream token. */
  method ReconcileProviderToken(table: TokenTable, p: Provider, u: UpstreamToken)
        returns (pt: ProviderToken, recoveredFrom: string)
    ensures fresh(pt)
    ensures pt.providerId == p.id && pt.upstreamTokenId == u.id
    ensures pt.Key() == ReconciledKey(u, Existing(table.rows, p.id, u.id))
    ensures forall rowId :: pt.Row(rowId) == SyncedRow(p, u, rowId, Existing(table.rows, p.id, u.id))
    ensures recoveredFrom == "unresolved" <==> !IsKeyReady(pt.Key())
  {
    hide NormalizeKeyForStorage, ClassifyKeyMaterial;
    var existing := Existing(table.rows, p.id, u.id);
    pt := new ProviderToken(p.id, u.id, u.groupName, u.status, p.priority, p.weight, u.modelLimits);
    ReconciledReady(u, existing);
    if IsUsableKey(u.key) {
      pt.MarkKeyReady(u.key);
      return pt, "list";
    }
    var unresolvedReason := PLAINTEXT_NOT_RECOVERED;
    if u.plaintext.Ok? && IsUsableKey(u.plaintext.value) {
      pt.MarkKeyReady(u.plaintext.value);
      return pt, "key_endpoint";
    }
    if u.plaintext.Err? {
      unresolvedReason := ReasonForFetchError(u.plaintext.error);
    }
    if u.detail.Some? && IsUsableKey(u.detail.value) {
      pt.MarkKeyReady(u.detail.value);
      return pt, "detail";
    }
    var preserved := pt.PreserveReadyKeyFrom(existing);
    if preserved {
      return pt, "local_preserved";
    }
    if unresolvedReason == PLAINTEXT_NOT_RECOVERED {
      unresolvedReason := ReasonForExisting(existing);
    }
    pt.MarkKeyUnresolved(unresolvedReason);
    return pt, "unresolved";
  }

  /** The chain ends ready exactly when one of its four sources holds a usable key. */
  predicate Recoverable(u: UpstreamToken, existing: Option<TokenRow>) {
    || IsUsableKey(u.key)
    || (u.plaintext.Ok? && IsUsableKey(u.plaintext.value))
    || (u.detail.Some? && IsUsableKey(u.detail.value))
    || (existing.Some? && IsKeyReady(existing.value.key))
  }

  lemma ReconciledReady(u: UpstreamToken, existing: Option<TokenRow>)
    ensures IsKeyReady(ReconciledKey(u, existing)) <==> Recoverable(u, existing)
    ensures ReconciledKey(u, existing).status == READY <==> Recoverable(u, existing)
  {
    hide NormalizeKeyForStorage, ClassifyKeyMaterial;
    BlankIsEmpty();
    StoredKeyReady(u.key);
    if u.plaintext.Ok? { StoredKeyReady(u.plaintext.value); }
    if u.detail.Some? { StoredKeyReady(u.detail.value); }
    if existing.Some? { StoredKeyReady(existing.value.key.skKey); }
  }

  lemma StoredKeyReady(key: string)
    ensures IsUsableKey(key) ==> IsKeyReady(KeyState(NormalizeKeyForStorage(key), READY, []))
    ensures NormalizeKeyForStorage(key) != [] <==> IsUsableKey(key)
  {
    StoredIffUsable(key);
    if IsUsableKey(key) {
      StorageKeyIsFixed(key);
    }
  }

  /** How many of the listed tokens end up ready, each judged against the table it met. */
  function ReadyAlong(rows: seq<TokenRow>, nextId: int, p: Provider, tokens: seq<UpstreamToken>): nat {
    if tokens == [] then 0
    else
      var init, u := tokens[..|tokens| - 1], tokens[|tokens| - 1];
      var r := SyncAll(rows, nextId, p, init).0;
      ReadyAlong(rows, nextId, p, init) + (if Recoverable(u, Existing(r, p.id, u.id)) then 1 else 0)
  }

  /** One listed token, reconciled and stored. */
  method StoreToken(table: TokenTable, p: Provider, u: UpstreamToken) returns (ready: bool)
    modifies table
    ensures (table.rows, table.nextId) == SyncOne(old(table.rows), old(table.nextId), p, u)
    ensures ready <==> Recoverable(u, Existing(old(table.rows), p.id, u.id))
  {
    hide ReconciledKey, ResolvePersistenceState, IsUsableKey, Recoverable;
    ghost var existing := Existing(table.rows, p.id, u.id);
    var pt, from := ReconcileProviderToken(table, p, u);
    ReconciledReady(u, existing);
    table.Upsert(pt);
    ready := IsKeyReady(pt.Key());
  }

  lemma IdsOf(tokens: seq<UpstreamToken>, ids: seq<int>)
    requires |ids| == |tokens| && forall j :: 0 <= j < |tokens| ==> ids[j] == tokens[j].id
    ensures (set i | i in ids) == Ids(tokens)
  {
    forall u | u in tokens ensures u.id in ids {
      var j :| 0 <= j < |tokens| && tokens[j] == u;
      assert ids[j] == u.id;
    }
  }

  /** A whole pass over the listed tokens. */
  method ReconcileProviderTokens(table: TokenTable, p: Provider, tokens: seq<UpstreamToken>, ending: Ending)
      returns (result: Option<Summary>)
    modifies table
    ensures (table.rows, table.nextId) == SyncPass(old(table.rows), old(table.nextId), p, tokens, ending)
    ensures result.None? <==> Aborts(ending, tokens)
    ensures result.Some? ==> result.value.total == |tokens|
    ensures result.Some? ==> result.value.readyCount + result.value.unresolvedCount == result.value.total
    ensures result.Some? ==> result.value.readyCount == ReadyAlong(old(table.rows), old(table.nextId), p, tokens)
  {
    hide Recoverable, SyncOne, Existing, Cleanup;
    var upstreamIds: seq<int> := [];
    var total, ready, unresolved := 0, 0, 0;
    for i := 0 to |tokens|
      invariant (table.rows, table.nextId) == SyncAll(old(table.rows), old(table.nextId), p, tokens[..i])
      invariant |upstreamIds| == total == i && ready + unresolved == total && 0 <= ready <= total
      invariant forall j :: 0 <= j < i ==> upstreamIds[j] == tokens[j].id
      invariant ready == ReadyAlong(old(table.rows), old(table.nextId), p, tokens[..i])
      invariant Aborts(ending, tokens) ==> i <= ending.token
    {
      if ending == AbortedAt(i) {
        return None;
      }
      assert tokens[..i + 1][..i] == tokens[..i];
      upstreamIds := upstreamIds + [tokens[i].id];
      var isReady := StoreToken(table, p, tokens[i]);
      total := total + 1;
      if isReady {
        ready := ready + 1;
      } else {
        unresolved := unresolved + 1;
      }
    }
    assert tokens[..|tokens|] == tokens;
    IdsOf(tokens, upstreamIds);
    if ending != NoCleanup {
      table.DeleteNotInIds(p.id, upstreamIds);
    }
    result := Some(Summary(total, ready, unresolved));
  }

  // ---------------------------------------------------------------- what a pass promises

  function LocalIds(rows: seq<TokenRow>, provider: int): set<int> {
    set r | r in rows && r.providerId == provider :: r.upstreamTokenId
  }

  function OfOthers(rows: seq<TokenRow>, provider: int): seq<TokenRow> {
    if rows == [] then []
    else if rows[|rows| - 1].providerId == provider then OfOthers(rows[..|rows| - 1], provider)
    else OfOthers(rows[..|rows| - 1], provider) + [rows[|rows| - 1]]
  }

  lemma {:induction false} OthersMembers(rows: seq<TokenRow>, provider: int)
    ensures forall r :: r in OfOthers(rows, provider) <==> r in rows && r.providerId != provider
  {
    if rows != [] {
      OthersMembers(rows[..|rows| - 1], provider);
      assert rows == rows[..|rows| - 1] + [rows[|rows| - 1]];
    }
  }

  lemma SyncOneIds(rows: seq<TokenRow>, nextId: int, p: Provider, u: UpstreamToken)
    ensures LocalIds(SyncOne(rows, nextId, p, u).0, p.id) == LocalIds(rows, p.id) + {u.id}
  {
    hide ReconciledKey, ResolvePersistenceState;
    var at := FindRow(rows, p.id, u.id);
    var next := SyncOne(rows, nextId, p, u).0;
    if at.Some? {
      forall r | r in rows && r.providerId == p.id ensures r.upstreamTokenId in LocalIds(next, p.id) {
        var j :| 0 <= j < |rows| && rows[j] == r;
        assert next[j] in next && next[j].upstreamTokenId == r.upstreamTokenId;
      }
      assert next[at.value] in next;
    } else {
      assert next[|rows|] in next;
      assert forall r :: r in rows ==> r in next;
    }
  }

  lemma {:induction false} SyncAllIds(rows: seq<TokenRow>, nextId: int, p: Provider, tokens: seq<UpstreamToken>)
    ensures LocalIds(SyncAll(rows, nextId, p, tokens).0, p.id) == LocalIds(rows, p.id) + Ids(tokens)
  {
    hide SyncOne, LocalIds;
    if tokens != [] {
      var init, u := tokens[..|tokens| - 1], tokens[|tokens| - 1];
      SyncAllIds(rows, nextId, p, init);
      var (r, n) := SyncAll(rows, nextId, p, init);
      SyncOneIds(r, n, p, u);
      assert tokens == init + [u];
      assert Ids(tokens) == Ids(init) + {u.id};
    } else {
      assert Ids(tokens) == {};
    }
  }

  lemma {:induction false} CleanupMembers(rows: seq<TokenRow>, provider: int, listed: set<int>, r: TokenRow)
    ensures r in Cleanup(rows, provider, listed)
       <==> r in rows && (r.providerId != provider || r.upstreamTokenId in listed)
  {
    if rows != [] {
      CleanupMembers(rows[1..], provider, listed, r);
      assert rows == [rows[0]] + rows[1..];
    }
  }

  /** After a pass with cleanup the provider's local ids are exactly the listed ones. */
  lemma SyncedIdsAreListed(rows: seq<TokenRow>, nextId: int, p: Provider, tokens: seq<UpstreamToken>)
    ensures LocalIds(SyncPass(rows, nextId, p, tokens, Whole).0, p.id) == Ids(tokens)
  {
    hide SyncOne, Cleanup;
    SyncAllIds(rows, nextId, p, tokens);
    var synced := SyncAll(rows, nextId, p, tokens).0;
    var kept := Cleanup(synced, p.id, Ids(tokens));
    forall r ensures r in kept <==> r in synced && (r.providerId != p.id || r.upstreamTokenId in Ids(tokens)) {
      CleanupMembers(synced, p.id, Ids(tokens), r);
    }
    forall i | i in Ids(tokens) ensures i in LocalIds(kept, p.id) {
      var r :| r in synced && r.providerId == p.id && r.upstreamTokenId == i;
      assert r in kept;
    }
  }

  lemma {:induction false} OfOthersUpdate(rows: seq<TokenRow>, provider: int, i: nat, r: TokenRow)
    requires i < |rows| && rows[i].providerId == provider == r.providerId
    ensures OfOthers(rows[i := r], provider) == OfOthers(rows, provider)
  {
    var n := |rows| - 1;
    if i < n {
      OfOthersUpdate(rows[..n], provider, i, r);
      assert rows[i := r][..n] == rows[..n][i := r];
    } else {
      assert rows[i := r][..n] == rows[..n];
    }
  }

  lemma {:induction false} OfOthersCons(r: TokenRow, rows: seq<TokenRow>, provider: int)
    ensures OfOthers([r] + rows, provider) == (if r.providerId == provider then [] else [r]) + OfOthers(rows, provider)
  {
    if rows == [] {
      assert [r] + rows == [r] && [r][..0] == [];
    } else {
      var n := |rows| - 1;
      OfOthersCons(r, rows[..n], provider);
      assert ([r] + rows)[..n + 1] == [r] + rows[..n];
    }
  }

  lemma {:induction false} OfOthersCleanup(rows: seq<TokenRow>, provider: int, listed: set<int>)
    ensures OfOthers(Cleanup(rows, provider, listed), provider) == OfOthers(rows, provider)
  {
    if rows != [] {
      OfOthersCleanup(rows[1..], provider, listed);
      assert rows == [rows[0]] + rows[1..];
      OfOthersCons(rows[0], rows[1..], provider);
      OfOthersCons(rows[0], Cleanup(rows[1..], provider, listed), provider);
    }
  }

  lemma {:induction false} OfOthersSync(rows: seq<TokenRow>, nextId: int, p: Provider, tokens: seq<UpstreamToken>)
    ensures OfOthers(SyncAll(rows, nextId, p, tokens).0, p.id) == OfOthers(rows, p.id)
  {
    hide ReconciledKey, ResolvePersistenceState;
    if tokens != [] {
      var init, u := tokens[..|tokens| - 1], tokens[|tokens| - 1];
      OfOthersSync(rows, nextId, p, init);
      var (r, n) := SyncAll(rows, nextId, p, init);
      var at := FindRow(r, p.id, u.id);
      if at.Some? {
        OfOthersUpdate(r, p.id, at.value, SyncedRow(p, u, r[at.value].id, Some(r[at.value])));
      } else {
        assert (r + [SyncedRow(p, u, n, None)])[..|r|] == r;
      }
    }
  }

  /** A pass touches no row of another provider, and keeps their order. */
  lemma OtherProvidersUntouched(rows: seq<TokenRow>, nextId: int, p: Provider, tokens: seq<UpstreamToken>,
                                ending: Ending)
    ensures OfOthers(SyncPass(rows, nextId, p, tokens, ending).0, p.id) == OfOthers(rows, p.id)
    ensures forall r: TokenRow ::
              r.providerId != p.id ==> (r in SyncPass(rows, nextId, p, tokens, ending).0 <==> r in rows)
  {
    OthersMembers(rows, p.id);
    OthersMembers(SyncPass(rows, nextId, p, tokens, ending).0, p.id);
    hide SyncAll, Cleanup, OfOthers;
    OfOthersSync(rows, nextId, p, Stored(ending, tokens));
    OfOthersCleanup(SyncAll(rows, nextId, p, Stored(ending, tokens)).0, p.id, Ids(tokens));
  }

  // ---------------------------------------------------------------- what the stored rows say

  /** Why a token without any usable key is unresolved. */
  ghost function UnresolvedBecause(u: UpstreamToken, existing: Option<TokenRow>): string {
    if u.plaintext == Err(Unauthorized) then "key_endpoint_unauthorized"
    else if u.plaintext == Err(Unavailable) then "key_endpoint_unavailable"
    else if u.plaintext == Err(RequestFailed) then "key_endpoint_request_failed"
    else if existing.Some? && TrimSpace(existing.value.key.reason) != "" then TrimSpace(existing.value.key.reason)
    else if existing.Some? && ContainsDoubleStar(TrimSpace(existing.value.key.skKey)) then "legacy_contaminated"
    else "plaintext_not_recovered"
  }

  /** The form in which a usable key is stored. */
  ghost function Prefixed(key: string): string {
    if "sk-" <= TrimSpace(key) then TrimSpace(key) else "sk-" + TrimSpace(key)
  }

  /** The first usable key in the order: listed, key endpoint, detail, local; or none, and why. */
  ghost function BestKey(u: UpstreamToken, existing: Option<TokenRow>): KeyState {
    if IsUsableKey(u.key) then KeyState(Prefixed(u.key), "ready", "")
    else if u.plaintext.Ok? && IsUsableKey(u.plaintext.value) then KeyState(Prefixed(u.plaintext.value), "ready", "")
    else if u.detail.Some? && IsUsableKey(u.detail.value) then KeyState(Prefixed(u.detail.value), "ready", "")
    else if existing.Some? && IsUsableKey(existing.value.key.skKey) then
      KeyState(Prefixed(existing.value.key.skKey), "ready", "")
    else KeyState("", "unresolved", UnresolvedBecause(u, existing))
  }

  lemma ResolvedReady(key: string)
    requires IsUsableKey(key)
    ensures ResolvePersistenceState(KeyState(NormalizeKeyForStorage(key), READY, []))
         == KeyState(Prefixed(key), "ready", "")
  {
    StoredIffUsable(key);
    StorageKeyIsFixed(key);
    StoredKey(key);
    hide NormalizeKeyForStorage, IsUsableKey, TrimSpace;
  }

  lemma ResolvedUnresolved(reason: string)
    ensures ResolvePersistenceState(KeyState([], UNRESOLVED, DefaultUnresolvedReason(reason, [])))
         == KeyState("", "unresolved", if TrimSpace(reason) != "" then TrimSpace(reason) else "plaintext_not_recovered")
  {
    BlankIsEmpty();
    LowerTrim(reason);
    TrimSpaceTrimmed(PLAINTEXT_NOT_RECOVERED);
    assert ClassifyKeyMaterial([]) == Empty by {
      assert TrimSpace([]) == [];
    }
    hide TrimSpace, ClassifyKeyMaterial, NormalizeKeyForStorage;
  }

  lemma ReasonsTrimmed()
    ensures TrimSpace("key_endpoint_unauthorized") == "key_endpoint_unauthorized"
    ensures TrimSpace("key_endpoint_unavailable") == "key_endpoint_unavailable"
    ensures TrimSpace("key_endpoint_request_failed") == "key_endpoint_request_failed"
    ensures TrimSpace("legacy_contaminated") == "legacy_contaminated"
    ensures TrimSpace("plaintext_not_recovered") == "plaintext_not_recovered"
  {
    hide TrimSpace;
    TrimSpaceTrimmed("key_endpoint_unauthorized");
    TrimSpaceTrimmed("key_endpoint_unavailable");
    TrimSpaceTrimmed("key_endpoint_request_failed");
    TrimSpaceTrimmed("legacy_contaminated");
    TrimSpaceTrimmed("plaintext_not_recovered");
  }

  /** The row of a synced token: its provider's and its own settings, and the best key there is. */
  lemma SyncedRowTells(p: Provider, u: UpstreamToken, rowId: int, existing: Option<TokenRow>)
    ensures SyncedRow(p, u, rowId, existing)
         == TokenRow(rowId, p.id, u.id, BestKey(u, existing), u.groupName, u.status, p.priority, p.weight,
                     u.modelLimits)
  {
    hide ResolvePersistenceState, IsUsableKey, NormalizeKeyForStorage, TrimSpace, DefaultUnresolvedReason, IsKeyReady,
         ClassifyKeyMaterial, UnresolvedBecause, Prefixed;
    if IsUsableKey(u.key) {
      ResolvedReady(u.key);
    } else if u.plaintext.Ok? && IsUsableKey(u.plaintext.value) {
      ResolvedReady(u.plaintext.value);
    } else if u.detail.Some? && IsUsableKey(u.detail.value) {
      ResolvedReady(u.detail.value);
    } else {
      if existing.Some? {
        ReadyIff(existing.value.key);
      }
      if existing.Some? && IsUsableKey(existing.value.key.skKey) {
        ResolvedReady(existing.value.key.skKey);
      } else {
        UnresolvedKey(u, existing);
      }
    }
  }

  lemma UnresolvedKey(u: UpstreamToken, existing: Option<TokenRow>)
    ensures var fetched := if u.plaintext.Err? then ReasonForFetchError(u.plaintext.error) else PLAINTEXT_NOT_RECOVERED;
            var reason := if fetched == PLAINTEXT_NOT_RECOVERED then ReasonForExisting(existing) else fetched;
            ResolvePersistenceState(KeyState([], UNRESOLVED, DefaultUnresolvedReason(reason, [])))
            == KeyState("", "unresolved", UnresolvedBecause(u, existing))
  {
    hide ResolvePersistenceState, DefaultUnresolvedReason, TrimSpace, ClassifyKeyMaterial, ContainsDoubleStar;
    var fetched := if u.plaintext.Err? then ReasonForFetchError(u.plaintext.error) else PLAINTEXT_NOT_RECOVERED;
    var reason := if fetched == PLAINTEXT_NOT_RECOVERED then ReasonForExisting(existing) else fetched;
    ReasonsTrimmed();
    ResolvedUnresolved(reason);
    if existing.Some? {
      MaskedIff(existing.value.key.skKey);
    }
  }

  /** The table has a row for the token, with its provider's and its own settings; a usable listed key is its key. */
  ghost predicate StoredAs(rows: seq<TokenRow>, p: Provider, u: UpstreamToken) {
    exists r :: r in rows && CarriesToken(r, p, u)
  }

  ghost predicate CarriesToken(r: TokenRow, p: Provider, u: UpstreamToken) {
    && r.providerId == p.id && r.upstreamTokenId == u.id && r.groupName == u.groupName && r.status == u.status
    && r.priority == p.priority && r.weight == p.weight && r.modelLimits == u.modelLimits
    && (IsUsableKey(u.key) ==> r.key == KeyState(Prefixed(u.key), "ready", ""))
  }

  lemma SyncOneStores(rows: seq<TokenRow>, nextId: int, p: Provider, u: UpstreamToken)
    ensures StoredAs(SyncOne(rows, nextId, p, u).0, p, u)
  {
    hide IsUsableKey, SyncedRow, Prefixed, UnresolvedBecause;
    var at := FindRow(rows, p.id, u.id);
    var existing := if at.Some? then Some(rows[at.value]) else None;
    var rowId := if at.Some? then rows[at.value].id else nextId;
    SyncedRowTells(p, u, rowId, existing);
    var next := SyncOne(rows, nextId, p, u).0;
    assert CarriesToken(SyncedRow(p, u, rowId, existing), p, u);
    assert next[if at.Some? then at.value else |rows|] in next;
  }

  lemma SyncOneKeepsOthers(rows: seq<TokenRow>, nextId: int, p: Provider, u: UpstreamToken, v: UpstreamToken)
    requires StoredAs(rows, p, u) && u.id != v.id
    ensures StoredAs(SyncOne(rows, nextId, p, v).0, p, u)
  {
    hide CarriesToken, SyncedRow;
    var r :| r in rows && CarriesToken(r, p, u);
    assert r.upstreamTokenId == u.id by { TokenOf(r, p, u); }
    var j :| 0 <= j < |rows| && rows[j] == r;
    var next := SyncOne(rows, nextId, p, v).0;
    assert next[j] == r;
    assert next[j] in next;
  }

  lemma TokenOf(r: TokenRow, p: Provider, u: UpstreamToken)
    requires CarriesToken(r, p, u)
    ensures r.providerId == p.id && r.upstreamTokenId == u.id
  {
  }

  lemma {:induction false} SyncAllStores(rows: seq<TokenRow>, nextId: int, p: Provider, tokens: seq<UpstreamToken>,
                                         i: nat)
    requires i < |tokens| && forall j, k :: 0 <= j < k < |tokens| ==> tokens[j].id != tokens[k].id
    ensures StoredAs(SyncAll(rows, nextId, p, tokens).0, p, tokens[i])
  {
    hide SyncOne, StoredAs;
    var init, last := tokens[..|tokens| - 1], tokens[|tokens| - 1];
    var (r, n) := SyncAll(rows, nextId, p, init);
    if i < |init| {
      SyncAllStores(rows, nextId, p, init, i);
      SyncOneKeepsOthers(r, n, p, tokens[i], last);
    } else {
      SyncOneStores(r, n, p, last);
    }
  }

  /** After a whole pass over distinct tokens the table holds each of them as upstream lists it, key and all. */
  lemma ListedTokensAreStored(rows: seq<TokenRow>, nextId: int, p: Provider, tokens: seq<UpstreamToken>, i: nat)
    requires i < |tokens| && forall j, k :: 0 <= j < k < |tokens| ==> tokens[j].id != tokens[k].id
    ensures StoredAs(SyncPass(rows, nextId, p, tokens, Whole).0, p, tokens[i])
  {
    hide SyncAll, Cleanup, CarriesToken;
    SyncAllStores(rows, nextId, p, tokens, i);
    var synced := SyncAll(rows, nextId, p, tokens).0;
    var r :| r in synced && CarriesToken(r, p, tokens[i]);
    TokenOf(r, p, tokens[i]);
    assert tokens[i] in tokens && tokens[i].id in Ids(tokens);
    CleanupMembers(synced, p.id, Ids(tokens), r);
  }

  // ---------------------------------------------------------------- sequences of passes

  datatype Pass = Pass(provider: Provider, tokens: seq<UpstreamToken>, ending: Ending)

  function RunPasses(rows: seq<TokenRow>, nextId: int, passes: seq<Pass>): (seq<TokenRow>, int) {
    if passes == [] then (rows, nextId)
    else
      var (r, n) := RunPasses(rows, nextId, passes[..|passes| - 1]);
      var last := passes[|passes| - 1];
      SyncPass(r, n, last.provider, last.tokens, last.ending)
  }

  predicate IsReadyRow(r: TokenRow, rowId: int, provider: int, upstream: int) {
    r.id == rowId && r.providerId == provider && r.upstreamTokenId == upstream && IsKeyReady(r.key)
  }

  /** The row `rowId` of an upstream token is there and its key is ready. */
  ghost predicate ReadyRow(rows: seq<TokenRow>, rowId: int, provider: int, upstream: int) {
    exists r :: r in rows && IsReadyRow(r, rowId, provider, upstream)
  }

  lemma ResolvedStaysReady(k: KeyState)
    ensures IsKeyReady(ResolvePersistenceState(k)) <==> IsKeyReady(k)
  {
    BlankIsEmpty();
    if NormalizeKeyForStorage(k.skKey) != [] {
      StorageKeyIsFixed(k.skKey);
    }
  }

  lemma SyncOneKeepsReady(rows: seq<TokenRow>, nextId: int, p: Provider, u: UpstreamToken, rowId: int, provider: int,
                          upstream: int)
    requires ReadyRow(rows, rowId, provider, upstream)
    ensures ReadyRow(SyncOne(rows, nextId, p, u).0, rowId, provider, upstream)
  {
    hide ReconciledKey, ResolvePersistenceState;
    var r :| r in rows && IsReadyRow(r, rowId, provider, upstream);
    var j :| 0 <= j < |rows| && rows[j] == r;
    var at := FindRow(rows, p.id, u.id);
    var next := SyncOne(rows, nextId, p, u).0;
    assert next[j] in next;
    if at.Some? && at.value == j {
      ReconciledReady(u, Some(r));
      ResolvedStaysReady(ReconciledKey(u, Some(r)));
    }
  }

  lemma {:induction false} SyncAllKeepsReady(rows: seq<TokenRow>, nextId: int, p: Provider, tokens: seq<UpstreamToken>,
                                             rowId: int, provider: int, upstream: int)
    requires ReadyRow(rows, rowId, provider, upstream)
    ensures ReadyRow(SyncAll(rows, nextId, p, tokens).0, rowId, provider, upstream)
  {
    hide ReadyRow, SyncOne;
    if tokens != [] {
      SyncAllKeepsReady(rows, nextId, p, tokens[..|tokens| - 1], rowId, provider, upstream);
      var (r, n) := SyncAll(rows, nextId, p, tokens[..|tokens| - 1]);
      SyncOneKeepsReady(r, n, p, tokens[|tokens| - 1], rowId, provider, upstream);
    }
  }

  /**
   * Over any sequence of passes, of any providers, however they end, a ready row stays ready
   * as long as every pass of its provider lists its token, whatever the endpoints answer.
   */
  lemma {:induction false} ReadyWhileListed(rows: seq<TokenRow>, nextId: int, passes: seq<Pass>, rowId: int,
                                            provider: int, upstream: int)
    requires ReadyRow(rows, rowId, provider, upstream)
    requires forall s :: s in passes && s.provider.id == provider ==> upstream in Ids(s.tokens)
    ensures ReadyRow(RunPasses(rows, nextId, passes).0, rowId, provider, upstream)
  {
    hide SyncAll, IsKeyReady;
    if passes != [] {
      var init, last := passes[..|passes| - 1], passes[|passes| - 1];
      assert passes == init + [last];
      ReadyWhileListed(rows, nextId, init, rowId, provider, upstream);
      var (r, n) := RunPasses(rows, nextId, init);
      var stored := Stored(last.ending, last.tokens);
      SyncAllKeepsReady(r, n, last.provider, stored, rowId, provider, upstream);
      var synced := SyncAll(r, n, last.provider, stored).0;
      var row :| row in synced && IsReadyRow(row, rowId, provider, upstream);
      CleanupMembers(synced, last.provider.id, Ids(last.tokens), row);
    }
  }

  ghost predicate AllNormal(rows: seq<TokenRow>) {
    forall r :: r in rows ==> NormalForm(r.key)
  }

  lemma {:induction false} SyncKeepsNormal(rows: seq<TokenRow>, nextId: int, p: Provider, tokens: seq<UpstreamToken>)
    requires AllNormal(rows)
    ensures AllNormal(SyncAll(rows, nextId, p, tokens).0)
  {
    hide ReconciledKey, ResolvePersistenceState, NormalForm;
    if tokens != [] {
      var init, u := tokens[..|tokens| - 1], tokens[|tokens| - 1];
      SyncKeepsNormal(rows, nextId, p, init);
      var (r, n) := SyncAll(rows, nextId, p, init);
      NormalizerFixpoints(ReconciledKey(u, Existing(r, p.id, u.id)));
      NormalizerFixpoints(ReconciledKey(u, None));
    }
  }

  /** Passes keep every row in the normalizer's normal form. */
  lemma {:induction false} PassesKeepNormal(rows: seq<TokenRow>, nextId: int, passes: seq<Pass>)
    requires AllNormal(rows)
    ensures AllNormal(RunPasses(rows, nextId, passes).0)
  {
    hide SyncAll, NormalForm;
    if passes != [] {
      var init, last := passes[..|passes| - 1], passes[|passes| - 1];
      PassesKeepNormal(rows, nextId, init);
      var (r, n) := RunPasses(rows, nextId, init);
      SyncKeepsNormal(r, n, last.provider, Stored(last.ending, last.tokens));
      var synced := SyncAll(r, n, last.provider, Stored(last.ending, last.tokens)).0;
      forall row | row in Cleanup(synced, last.provider.id, Ids(last.tokens)) ensures NormalForm(row.key) {
        CleanupMembers(synced, last.provider.id, Ids(last.tokens), row);
      }
    }
  }

  lemma BackfillFixpoint(rows: seq<TokenRow>)
    ensures AllNormal(Backfilled(rows))
    ensures AllNormal(rows) ==> Backfilled(rows) == rows
  {
    hide ResolvePersistenceState, NormalForm;
    forall k ensures NormalForm(ResolvePersistenceState(k)) && (ResolvePersistenceState(k) == k <==> NormalForm(k)) {
      NormalizerFixpoints(k);
    }
    if AllNormal(rows) {
      forall i | 0 <= i < |rows| ensures Backfilled(rows)[i] == rows[i] {
        assert rows[i] in rows;
        assert rows[i].(key := rows[i].key) == rows[i];
      }
    }
  }

  /** Once backfilled, no later backfill finds anything to write, whatever passes ran in between. */
  lemma SecondBackfillIdle(rows: seq<TokenRow>, nextId: int, passes: seq<Pass>)
    ensures var later := RunPasses(Backfilled(rows), nextId, passes).0;
            Backfilled(later) == later
  {
    BackfillFixpoint(rows);
    PassesKeepNormal(Backfilled(rows), nextId, passes);
    BackfillFixpoint(RunPasses(Backfilled(rows), nextId, passes).0);
  }

  // ---------------------------------------------------------------- fetching the upstream list

  datatype TokenPage = TokenPage(items: seq<int>, total: int, pageSize: int)
  datatype Fetched = Done(ids: seq<int>) | Failed | StillReading(ids: seq<int>)

  /** The ids of a page that have not been seen, each once, in order. */
  function Unseen(seen: seq<int>, items: seq<int>): seq<int>
    decreases items
  {
    if items == [] then seen
    else if items[0] in seen then Unseen(seen, items[1..])
    else Unseen(seen + [items[0]], items[1..])
  }

  /**
   * A page ends the listing when it is blank, when the announced total is reached, or when no total is announced and it
   * is short.
   */
  predicate LastPage(page: TokenPage, all: seq<int>) {
    || page.items == []
    || (if page.total > 0 then |all| >= page.total else |page.items| < page.pageSize)
  }

  function FetchFrom(seen: seq<int>, answers: seq<Option<TokenPage>>): Fetched
    decreases answers
  {
    if answers == [] then StillReading(seen)
    else if answers[0].None? then Failed
    else
      var all := Unseen(seen, answers[0].value.items);
      if LastPage(answers[0].value, all) then Done(all) else FetchFrom(all, answers[1..])
  }

  /** The paging loop over the answers given so far. */
  method FetchAllUpstreamTokens(answers: seq<Option<TokenPage>>) returns (result: Fetched)
    ensures result == FetchFrom([], answers)
  {
    var all: seq<int> := [];
    var page := 0;
    while page < |answers|
      invariant 0 <= page <= |answers|
      invariant FetchFrom([], answers) == FetchFrom(all, answers[page..])
    {
      assert answers[page..][1..] == answers[page + 1..];
      if answers[page].None? {
        return Failed;
      }
      var items := answers[page].value.items;
      ghost var before := all;
      for i := 0 to |items|
        invariant Unseen(before, items) == Unseen(all, items[i..])
      {
        assert items[i..][1..] == items[i + 1..];
        if items[i] in all {
          continue;
        }
        all := all + [items[i]];
      }
      if |items| == 0 {
        return Done(all);
      }
      if answers[page].value.total > 0 {
        if |all| >= answers[page].value.total {
          return Done(all);
        }
      } else if |items| < answers[page].value.pageSize {
        return Done(all);
      }
      page := page + 1;
    }
    return StillReading(all);
  }

  lemma {:induction false} UnseenMeaning(seen: seq<int>, items: seq<int>)
    requires NoDuplicates(seen)
    ensures NoDuplicates(Unseen(seen, items)) && seen <= Unseen(seen, items)
    ensures forall i :: i in Unseen(seen, items) <==> i in seen || i in items
    decreases items
  {
    if items != [] {
      assert items == [items[0]] + items[1..];
      UnseenMeaning(if items[0] in seen then seen else seen + [items[0]], items[1..]);
    }
  }

  /** How many answers the loop looks at. */
  function PagesRead(seen: seq<int>, answers: seq<Option<TokenPage>>): (n: nat)
    ensures n <= |answers|
    decreases answers
  {
    if answers == [] then 0
    else if answers[0].None? then 1
    else
      var all := Unseen(seen, answers[0].value.items);
      if LastPage(answers[0].value, all) then 1 else 1 + PagesRead(all, answers[1..])
  }

  ghost predicate OnPage(answers: seq<Option<TokenPage>>, n: nat, i: int) {
    exists k :: 0 <= k < n && k < |answers| && answers[k].Some? && i in answers[k].value.items
  }

  /** What was fetched is free of duplicates and holds exactly the ids of the pages that were read. */
  lemma {:induction false} FetchedIds(seen: seq<int>, answers: seq<Option<TokenPage>>)
    requires NoDuplicates(seen) && FetchFrom(seen, answers).Done?
    ensures var ids := FetchFrom(seen, answers).ids;
            NoDuplicates(ids) && forall i :: i in ids <==> i in seen || OnPage(answers, PagesRead(seen, answers), i)
    decreases answers
  {
    hide Unseen;
    var items := answers[0].value.items;
    var all := Unseen(seen, items);
    UnseenMeaning(seen, items);
    var n := PagesRead(seen, answers);
    if LastPage(answers[0].value, all) {
      forall i ensures OnPage(answers, n, i) <==> i in items {
        if i in items { assert answers[0].Some? && i in answers[0].value.items; }
      }
    } else {
      FetchedIds(all, answers[1..]);
      forall i ensures OnPage(answers, n, i) <==> i in items || OnPage(answers[1..], n - 1, i) {
        if OnPage(answers[1..], n - 1, i) {
          var k :| 0 <= k < n - 1 && k < |answers[1..]| && answers[1..][k].Some? && i in answers[1..][k].value.items;
          assert answers[k + 1] == answers[1..][k];
        }
        if i in items { assert answers[0].Some? && i in answers[0].value.items; }
        if OnPage(answers, n, i) {
          var k :| 0 <= k < n && k < |answers| && answers[k].Some? && i in answers[k].value.items;
          assert k == 0 || answers[1..][k - 1] == answers[k];
        }
      }
    }
  }

  /** The distinct ids on the first `n` pages. */
  ghost function PageIds(answers: seq<Option<TokenPage>>, n: nat): set<int> {
    set k, i | 0 <= k < n && k < |answers| && answers[k].Some? && i in answers[k].value.items :: i
  }

  ghost function IdSet(items: seq<int>): set<int> {
    set i | i in items
  }

  /**
   * Page k stops the loop: it is an error, it is blank, it brings the distinct ids to the positive total it announces,
   * or it announces none and is short.
   */
  ghost predicate StopsAt(seen: set<int>, answers: seq<Option<TokenPage>>, k: nat)
    requires k < |answers|
  {
    || answers[k].None?
    || answers[k].value.items == []
    || (if answers[k].value.total > 0 then |seen + PageIds(answers, k + 1)| >= answers[k].value.total
        else |answers[k].value.items| < answers[k].value.pageSize)
  }

  lemma PageIdsTail(answers: seq<Option<TokenPage>>, n: nat)
    requires answers != [] && answers[0].Some?
    ensures PageIds(answers, n + 1) == IdSet(answers[0].value.items) + PageIds(answers[1..], n)
  {
    forall i ensures i in PageIds(answers, n + 1) <==> i in answers[0].value.items || i in PageIds(answers[1..], n) {
      if i in PageIds(answers[1..], n) {
        var k :| 0 <= k < n && k < |answers[1..]| && answers[1..][k].Some? && i in answers[1..][k].value.items;
        assert answers[k + 1] == answers[1..][k];
      }
      if i in PageIds(answers, n + 1) {
        var k :| 0 <= k < n + 1 && k < |answers| && answers[k].Some? && i in answers[k].value.items;
        assert k == 0 || answers[1..][k - 1] == answers[k];
      }
    }
  }

  lemma NoIds()
    ensures IdSet([]) == {}
  {
  }

  lemma IdSetSnoc(ids: seq<int>, last: int)
    ensures IdSet(ids + [last]) == IdSet(ids) + {last} && (last in IdSet(ids) <==> last in ids)
  {
  }

  lemma {:induction false} DistinctSize(ids: seq<int>)
    requires NoDuplicates(ids)
    ensures |ids| == |IdSet(ids)|
  {
    hide IdSet;
    if ids == [] {
      NoIds();
    } else {
      var init, last := ids[..|ids| - 1], ids[|ids| - 1];
      DistinctSize(init);
      IdSetSnoc(init, last);
      assert ids == init + [last];
      assert last !in init;
    }
  }

  /** One page: the loop's own count is that of the distinct ids. */
  lemma FirstPage(seen: seq<int>, answers: seq<Option<TokenPage>>)
    requires NoDuplicates(seen) && answers != [] && answers[0].Some?
    ensures var all := Unseen(seen, answers[0].value.items);
            && NoDuplicates(all) && IdSet(all) == IdSet(seen) + IdSet(answers[0].value.items)
            && (StopsAt(IdSet(seen), answers, 0) <==> LastPage(answers[0].value, all))
  {
    hide Unseen, PageIds;
    var items := answers[0].value.items;
    UnseenMeaning(seen, items);
    DistinctSize(Unseen(seen, items));
    PageIdsTail(answers, 0);
    NoPage(answers[1..]);
    assert IdSet(Unseen(seen, items)) == IdSet(seen) + IdSet(items);
    assert IdSet(items) + {} == IdSet(items);
  }

  lemma NoPage(answers: seq<Option<TokenPage>>)
    ensures PageIds(answers, 0) == {}
  {
  }

  lemma StopsAtTail(seen: set<int>, answers: seq<Option<TokenPage>>, k: nat)
    requires answers != [] && answers[0].Some? && k + 1 < |answers|
    ensures StopsAt(seen, answers, k + 1) <==> StopsAt(seen + IdSet(answers[0].value.items), answers[1..], k)
  {
    hide PageIds, IdSet;
    PageIdsTail(answers, k + 1);
    assert answers[1..][k] == answers[k + 1];
    var first, rest := IdSet(answers[0].value.items), PageIds(answers[1..], k + 1);
    assert seen + (first + rest) == (seen + first) + rest;
  }

  /** The loop is still reading after the pages so far exactly when none of them stops it. */
  lemma {:induction false} StillReadingIff(seen: seq<int>, answers: seq<Option<TokenPage>>)
    requires NoDuplicates(seen)
    ensures FetchFrom(seen, answers).StillReading?
       <==> forall k :: 0 <= k < |answers| ==> !StopsAt(IdSet(seen), answers, k)
    decreases answers
  {
    hide Unseen, StopsAt, LastPage, IdSet;
    if answers != [] {
      if answers[0].None? {
        ErrorStops(IdSet(seen), answers);
      } else {
        var all := Unseen(seen, answers[0].value.items);
        FirstPage(seen, answers);
        StillReadingIff(all, answers[1..]);
        forall k | 0 <= k < |answers| - 1
          ensures StopsAt(IdSet(seen), answers, k + 1) <==> StopsAt(IdSet(all), answers[1..], k)
        {
          StopsAtTail(IdSet(seen), answers, k);
        }
        if forall k :: 0 <= k < |answers[1..]| ==> !StopsAt(IdSet(all), answers[1..], k) {
          forall k | 0 < k < |answers| ensures !StopsAt(IdSet(seen), answers, k) {
            assert !StopsAt(IdSet(all), answers[1..], k - 1);
          }
        }
      }
    }
  }

  lemma ErrorStops(seen: set<int>, answers: seq<Option<TokenPage>>)
    requires answers != [] && answers[0].None?
    ensures StopsAt(seen, answers, 0)
  {
  }

  /** So a listing without errors ends once a page announces no more than the distinct ids listed up to it. */
  lemma TrueTotalEnds(answers: seq<Option<TokenPage>>, k: nat)
    requires forall j :: 0 <= j < |answers| ==> answers[j].Some?
    requires k < |answers| && 0 < answers[k].value.total <= |PageIds(answers, k + 1)|
    ensures FetchFrom([], answers).Done?
  {
    hide PageIds;
    StillReadingIff([], answers);
    assert IdSet([]) + PageIds(answers, k + 1) == PageIds(answers, k + 1);
    assert StopsAt(IdSet([]), answers, k);
    NeverFails([], answers);
  }

  lemma {:induction false} NeverFails(seen: seq<int>, answers: seq<Option<TokenPage>>)
    requires forall j :: 0 <= j < |answers| ==> answers[j].Some?
    ensures !FetchFrom(seen, answers).Failed?
    decreases answers
  {
    if answers != [] {
      NeverFails(Unseen(seen, answers[0].value.items), answers[1..]);
    }
  }

  /**
   * The loop need not end: an upstream that ignores the page number and announces more tokens than it lists
   * keeps it reading, however many pages it has answered.
   */
  lemma PagingNeedNotEnd(page: TokenPage, n: nat)
    requires page.items != [] && page.total > |IdSet(page.items)|
    ensures FetchFrom([], seq(n, i => Some(page))).StillReading?
  {
    hide PageIds, IdSet, FetchFrom;
    var answers := seq(n, i => Some(page));
    StillReadingIff([], answers);
    forall k | 0 <= k < n ensures !StopsAt(IdSet([]), answers, k) {
      SamePageIds(page, n, k + 1);
      NoIds();
      assert IdSet([]) + PageIds(answers, k + 1) == IdSet(page.items);
    }
  }

  lemma SamePageIds(page: TokenPage, n: nat, m: nat)
    requires 0 < m <= n
    ensures PageIds(seq(n, i => Some(page)), m) == IdSet(page.items)
  {
    var answers: seq<Option<TokenPage>> := seq(n, i => Some(page));
    forall i ensures i in PageIds(answers, m) <==> i in page.items {
      if i in page.items {
        assert answers[0].Some? && i in answers[0].value.items;
      }
    }
  }

  /** One token under a total of two. */
  lemma PagingExample(n: nat)
    ensures FetchFrom([], seq(n, i => Some(TokenPage([1], 2, 100)))).StillReading?
  {
    assert IdSet([1]) == {1};
    PagingNeedNotEnd(TokenPage([1], 2, 100), n);
  }
}
