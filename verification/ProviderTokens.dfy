/** model/provider_token.go: key material, its normal form, and the rows that hold it. */
module ProviderTokens {
  import opened Text
  import opened Wrappers
  import ModelAlias

  const READY := "ready"
  const UNRESOLVED := "unresolved"
  const PLAINTEXT_NOT_RECOVERED := "plaintext_not_recovered"
  const LEGACY_CONTAMINATED := "legacy_contaminated"

  datatype KeyMaterial = Empty | Masked | Usable

  /** The three columns the key-state normalizer owns. */
  datatype KeyState = KeyState(skKey: string, status: string, reason: string)

  datatype TokenRow = TokenRow(
    id: int,
    providerId: int,
    upstreamTokenId: int,
    key: KeyState,
    groupName: string,
    status: int,
    priority: int,
    weight: int,
    modelLimits: string)

  predicate ContainsDoubleStar(s: string) {
    exists i :: 0 <= i < |s| - 1 && s[i] == '*' && s[i + 1] == '*'
  }

  predicate IsMaskedKey(key: string) {
    ContainsDoubleStar(TrimSpace(key))
  }

  function ClassifyKeyMaterial(key: string): KeyMaterial {
    var trimmed := TrimSpace(key);
    if trimmed == [] then Empty
    else if IsMaskedKey(trimmed) then Masked
    else
      var raw := ModelAlias.TrimPrefix(trimmed, "sk-");
      if raw == [] then Empty else if IsMaskedKey(raw) then Masked else Usable
  }

  predicate IsUsableKey(key: string) {
    ClassifyKeyMaterial(key) == Usable
  }

  function NormalizeKeyForStorage(key: string): string {
    var trimmed := TrimSpace(key);
    if IsUsableKey(trimmed) then "sk-" + ModelAlias.TrimPrefix(trimmed, "sk-") else []
  }

  function DefaultUnresolvedReason(reason: string, key: string): string {
    if TrimSpace(reason) != [] then TrimSpace(reason)
    else if ClassifyKeyMaterial(key) == Masked then LEGACY_CONTAMINATED
    else PLAINTEXT_NOT_RECOVERED
  }

  /** The key-state normalizer: what every writer stores. */
  function ResolvePersistenceState(k: KeyState): KeyState {
    var normalized := NormalizeKeyForStorage(k.skKey);
    if normalized != [] then KeyState(normalized, READY, [])
    else KeyState([], UNRESOLVED, DefaultUnresolvedReason(k.reason, k.skKey))
  }

  predicate IsKeyReady(k: KeyState) {
    ResolvePersistenceState(k).status == READY
  }

  predicate CanParticipateInRouting(row: TokenRow) {
    row.status == 1 && IsKeyReady(row.key)
  }

  // ---------------------------------------------------------------- the normal form

  lemma StarsBehindPrefix(raw: string)
    ensures ContainsDoubleStar("sk-" + raw) == ContainsDoubleStar(raw)
  {
    var s := "sk-" + raw;
    if ContainsDoubleStar(raw) {
      var i :| 0 <= i < |raw| - 1 && raw[i] == '*' && raw[i + 1] == '*';
      assert s[i + 3] == '*' && s[i + 4] == '*';
    }
    if ContainsDoubleStar(s) {
      var i :| 0 <= i < |s| - 1 && s[i] == '*' && s[i + 1] == '*';
      assert i >= 3 && raw[i - 3] == '*' && raw[i - 2] == '*';
    }
  }

  /** What the normalizer stores for a usable key is usable and normalizes to itself. */
  lemma StorageKeyIsFixed(key: string)
    requires NormalizeKeyForStorage(key) != []
    ensures NormalizeKeyForStorage(NormalizeKeyForStorage(key)) == NormalizeKeyForStorage(key)
    ensures IsUsableKey(key)
  {
    hide TrimSpace, ContainsDoubleStar, ModelAlias.TrimPrefix;
    var trimmed := TrimSpace(key);
    TrimSpaceTrimmed(key);
    TrimSpaceTrimmed(trimmed);
    StoredShape(trimmed);
    StarsBehindPrefix(trimmed);
  }

  lemma StoredShape(trimmed: string)
    requires Trimmed(trimmed)
    ensures var raw := ModelAlias.TrimPrefix(trimmed, "sk-");
            raw != [] ==>
              && TrimSpace("sk-" + raw) == "sk-" + raw && ModelAlias.TrimPrefix("sk-" + raw, "sk-") == raw
              && ("sk-" + raw == trimmed || raw == trimmed)
  {
    hide TrimSpace;
    var raw := ModelAlias.TrimPrefix(trimmed, "sk-");
    if raw != [] {
      assert raw[|raw| - 1] == trimmed[|trimmed| - 1];
      TrimSpaceTrimmed("sk-" + raw);
    }
  }

  /** A key is usable when, trimmed, it is neither blank, nor masked, nor the bare prefix. */
  lemma UsableIff(key: string)
    ensures IsUsableKey(key)
       <==> TrimSpace(key) != "" && TrimSpace(key) != "sk-" && !ContainsDoubleStar(TrimSpace(key))
  {
    hide TrimSpace, ContainsDoubleStar;
    LowerTrim(key);
    var trimmed := TrimSpace(key);
    if "sk-" <= trimmed {
      var raw := trimmed[3..];
      assert trimmed == "sk-" + raw;
      StarsBehindPrefix(raw);
      TrimmedStars(raw);
    }
  }

  lemma TrimmedStars(s: string)
    ensures ContainsDoubleStar(TrimSpace(s)) ==> ContainsDoubleStar(s)
  {
    var front, back := TrimSpaceCuts(s);
    hide TrimSpace;
    var t := TrimSpace(s);
    if ContainsDoubleStar(t) {
      var i :| 0 <= i < |t| - 1 && t[i] == '*' && t[i + 1] == '*';
      assert s[|front| + i] == '*' && s[|front| + i + 1] == '*';
    }
  }

  /** A usable key is stored trimmed, as it is if it has the prefix, and behind the prefix if not. */
  lemma StoredKey(key: string)
    requires IsUsableKey(key)
    ensures NormalizeKeyForStorage(key) == if "sk-" <= TrimSpace(key) then TrimSpace(key) else "sk-" + TrimSpace(key)
  {
    LowerTrim(key);
    hide TrimSpace, ContainsDoubleStar;
    var trimmed := TrimSpace(key);
    if "sk-" <= trimmed {
      assert trimmed == "sk-" + trimmed[3..];
    }
  }

  lemma ReadyIff(k: KeyState)
    ensures IsKeyReady(k) <==> IsUsableKey(k.skKey)
  {
    StoredIffUsable(k.skKey);
    hide NormalizeKeyForStorage, IsUsableKey, DefaultUnresolvedReason;
  }

  /** What any writer makes of a key state. */
  lemma ResolvedMeaning(k: KeyState)
    ensures ResolvePersistenceState(k)
         == if IsUsableKey(k.skKey) then
              KeyState(if "sk-" <= TrimSpace(k.skKey) then TrimSpace(k.skKey) else "sk-" + TrimSpace(k.skKey),
                       "ready", "")
            else
              KeyState("", "unresolved",
                       if TrimSpace(k.reason) != "" then TrimSpace(k.reason)
                       else if ContainsDoubleStar(TrimSpace(k.skKey)) then "legacy_contaminated"
                       else "plaintext_not_recovered")
  {
    StoredIffUsable(k.skKey);
    if IsUsableKey(k.skKey) {
      StoredKey(k.skKey);
    } else {
      MaskedIff(k.skKey);
    }
    hide NormalizeKeyForStorage, TrimSpace, ClassifyKeyMaterial, ContainsDoubleStar;
  }

  lemma MaskedIff(key: string)
    ensures ClassifyKeyMaterial(key) == Masked <==> ContainsDoubleStar(TrimSpace(key))
  {
    LowerTrim(key);
    hide TrimSpace, ContainsDoubleStar;
    var trimmed := TrimSpace(key);
    if "sk-" <= trimmed {
      assert trimmed == "sk-" + trimmed[3..];
      StarsBehindPrefix(trimmed[3..]);
      TrimmedStars(trimmed[3..]);
    }
    if trimmed == [] {
      assert !ContainsDoubleStar(trimmed) by { NoStars(); }
    }
  }

  lemma NoStars()
    ensures !ContainsDoubleStar([])
  {
  }

  /** A usable key is stored, an unusable one is not. */
  lemma StoredIffUsable(key: string)
    ensures NormalizeKeyForStorage(key) != [] <==> IsUsableKey(key)
  {
    LowerTrim(key);
  }

  /** Either a storable key with nothing to explain, or no key and a reason. */
  predicate NormalForm(k: KeyState) {
    || (k.skKey != [] && NormalizeKeyForStorage(k.skKey) == k.skKey && k.status == READY && k.reason == [])
    || (k.skKey == [] && k.status == UNRESOLVED && k.reason != [] && TrimSpace(k.reason) == k.reason)
  }

  lemma BlankIsEmpty()
    ensures NormalizeKeyForStorage([]) == []
  {
  }

  /** Everything the normalizer writes is in normal form, and the normal forms are exactly its fixpoints. */
  lemma NormalizerFixpoints(k: KeyState)
    ensures NormalForm(ResolvePersistenceState(k))
    ensures ResolvePersistenceState(k) == k <==> NormalForm(k)
  {
    BlankIsEmpty();
    LowerTrim(k.reason);
    TrimSpaceTrimmed(LEGACY_CONTAMINATED);
    TrimSpaceTrimmed(PLAINTEXT_NOT_RECOVERED);
    if NormalizeKeyForStorage(k.skKey) != [] {
      StorageKeyIsFixed(k.skKey);
    }
  }

  // ---------------------------------------------------------------- a token on its way to the table

  class ProviderToken {
    var id: int
    const providerId: int
    const upstreamTokenId: int
    var skKey: string
    var keyStatus: string
    var keyUnresolvedReason: string
    const groupName: string
    const status: int
    const priority: int
    const weight: int
    const modelLimits: string

    constructor (providerId: int, upstreamTokenId: int, groupName: string, status: int, priority: int, weight: int,
                 modelLimits: string)
      ensures Key() == KeyState([], [], []) && id == 0
      ensures this.providerId == providerId && this.upstreamTokenId == upstreamTokenId && this.groupName == groupName
      ensures this.status == status && this.priority == priority && this.weight == weight
      ensures this.modelLimits == modelLimits
    {
      id := 0;
      this.providerId, this.upstreamTokenId := providerId, upstreamTokenId;
      this.groupName, this.status := groupName, status;
      this.priority, this.weight, this.modelLimits := priority, weight, modelLimits;
      skKey, keyStatus, keyUnresolvedReason := [], [], [];
    }

    function Key(): KeyState
      reads this
    {
      KeyState(skKey, keyStatus, keyUnresolvedReason)
    }

    /** The row a writer stores for this token. */
    function Row(rowId: int): TokenRow
      reads this
    {
      TokenRow(rowId, providerId, upstreamTokenId, ResolvePersistenceState(Key()), groupName, status, priority, weight,
               modelLimits)
    }

    method MarkKeyReady(key: string)
      modifies `skKey, `keyStatus, `keyUnresolvedReason
      ensures Key() == KeyState(NormalizeKeyForStorage(key), READY, [])
    {
      skKey := NormalizeKeyForStorage(key);
      keyStatus := READY;
      keyUnresolvedReason := [];
    }

    method MarkKeyUnresolved(reason: string)
      modifies `skKey, `keyStatus, `keyUnresolvedReason
      ensures Key() == KeyState([], UNRESOLVED, DefaultUnresolvedReason(reason, []))
    {
      skKey := [];
      keyStatus := UNRESOLVED;
      keyUnresolvedReason := DefaultUnresolvedReason(reason, []);
    }

    method PreserveReadyKeyFrom(existing: Option<TokenRow>) returns (preserved: bool)
      modifies `skKey, `keyStatus, `keyUnresolvedReason
      ensures preserved <==> existing.Some? && IsKeyReady(existing.value.key)
      ensures Key() == if preserved then KeyState(NormalizeKeyForStorage(existing.value.key.skKey), READY, [])
                       else old(Key())
    {
      if existing.None? || !IsKeyReady(existing.value.key) {
        return false;
      }
      MarkKeyReady(existing.value.key.skKey);
      return true;
    }
  }
}
