/** Which secret holds a store's key, and resolving it. */
module Credentials {
  import opened Text
  import opened Policy
  import opened SecretCell
  import opened SecretCache
  import opened Secrets

  const STORE_KEY_SECRET_PREFIX := "korral_store_key_"

  /** The name of the file with a store's key, for identifiers that could name one. */
  function StoreKeySecretName(storeId: string): Option<string> {
    if MatchesDigits(storeId, 10) then Some(STORE_KEY_SECRET_PREFIX + storeId) else None
  }

  /**
   * Names come from up to ten digits, and from nothing else but such digits with
   * one newline behind; two stores never share a file.
   */
  lemma StoreKeyNames(a: string, b: string)
    ensures StoreKeySecretName(a).Some? <==> IsId(a, 10) || (a != "" && a[|a| - 1] == '\n' && IsId(a[..|a| - 1], 10))
    ensures StoreKeySecretName(a).Some? && StoreKeySecretName(a) == StoreKeySecretName(b) ==> a == b
  {
    if StoreKeySecretName(a).Some? && StoreKeySecretName(a) == StoreKeySecretName(b) {
      assert (STORE_KEY_SECRET_PREFIX + a)[|STORE_KEY_SECRET_PREFIX|..] == a;
      assert (STORE_KEY_SECRET_PREFIX + b)[|STORE_KEY_SECRET_PREFIX|..] == b;
    }
  }

  /** A validated store identifier always names a file. */
  lemma ValidatedStoreHasName(raw: string)
    requires ValidateStoreId(raw).Ok?
    ensures StoreKeySecretName(ValidateStoreId(raw).value).Some?
  {
    ValidateIdIff(raw, 10);
    StoreKeyNames(ValidateStoreId(raw).value, "");
  }

  /** A value is held for the store's key. */
  predicate HoldsKey(storeId: string, held: set<string>) {
    StoreKeySecretName(storeId).Some? && StoreKeySecretName(storeId).value in held
  }

  lemma KeyStays(storeId: string, held: set<string>, later: set<string>)
    requires HoldsKey(storeId, held) && held <= later
    ensures HoldsKey(storeId, later)
  {
  }

  datatype KeyError = CredentialMissing | KeyNotUtf8

  function KeyOf(r: Result<string, SecretError>): Result<string, KeyError> {
    match r
    case Ok(key) => Ok(key)
    case Err(Unavailable) => Err(CredentialMissing)
    case Err(NotUtf8) => Err(KeyNotUtf8)
  }

  method ResolveStoreKey(secrets: SecretsProvider, storeId: string)
    returns (r: Result<string, KeyError>, ghost access: Access)
    requires secrets.Valid()
    modifies secrets, secrets.mount, secrets.registry
    ensures secrets.Valid() && old(secrets.mount.tick) <= secrets.mount.tick
    ensures old(secrets.values.Keys) <= secrets.values.Keys
    ensures r.Ok? ==> HoldsKey(storeId, secrets.values.Keys)
    ensures r.Err? && HoldsKey(storeId, old(secrets.values.Keys)) ==> !r.error.CredentialMissing?
    ensures
      var name := StoreKeySecretName(storeId);
      if name.None? then r == Err(CredentialMissing) && secrets.Fields() == old(secrets.Fields())
      else
        && secrets.Accessed(name.value, access, old(secrets.Fields()), old(secrets.mount.tick), secrets.Fields(),
                            secrets.mount.tick)
        && r == KeyOf(Served(access, secrets.Fields().HeldOf(name.value)))
        && (r.Ok? ==> WasContent(FileOf(secrets.mount.files, name.value), r.value, secrets.mount.tick))
  {
    var name := StoreKeySecretName(storeId);
    access := Failed;
    if name.None? {
      return Err(CredentialMissing), access;
    }
    var value;
    value, access := secrets.Get(name.value);
    r := KeyOf(value);
  }
}
