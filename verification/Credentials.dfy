/** The ideal hashes of `Accounts` stand for the credential texts of `Argon2id`: where
    the key derivation does not collide they verify alike, go stale alike and are
    equal alike.  `NewHasherChain` is `NewPasswordHasherChain` of
    `internal/identity/service/password.go`. */
module Credentials {
  import opened Types
  import opened Strings
  import Accounts
  import Argon2id
  import Encoding

  const SCHEME := "argon2id"

  method NewHasherChain(primary: string, params: Argon2id.Params, fallbacks: seq<string>)
    returns (r: Result<Accounts.Hasher>)
    ensures r.Ok? <==>
              && TrimSpace(primary) != ""
              && (forall i :: 0 <= i < |fallbacks| ==> TrimSpace(fallbacks[i]) != "" && fallbacks[i] != primary)
              && (forall i, j :: 0 <= i < j < |fallbacks| ==> fallbacks[i] != fallbacks[j])
    ensures r.Ok? ==> r.value == Accounts.Hasher(primary, (set scheme | scheme in fallbacks), params)
  {
    if TrimSpace(primary) == "" {
      return Err(ErrInvalid);
    }
    var schemes: set<string> := {};
    for i := 0 to |fallbacks|
      invariant forall j :: 0 <= j < i ==> TrimSpace(fallbacks[j]) != "" && fallbacks[j] != primary
      invariant forall j, k :: 0 <= j < k < i ==> fallbacks[j] != fallbacks[k]
      invariant schemes == (set scheme | scheme in fallbacks[..i])
    {
      if TrimSpace(fallbacks[i]) == "" || fallbacks[i] == primary {
        return Err(ErrInvalid);
      }
      if fallbacks[i] in schemes {
        return Err(ErrInvalid);
      }
      assert fallbacks[..i + 1] == fallbacks[..i] + [fallbacks[i]];
      schemes := schemes + {fallbacks[i]};
    }
    assert fallbacks[..|fallbacks|] == fallbacks;
    return Ok(Accounts.Hasher(primary, schemes, params));
  }

  predicate IsArgon(h: Accounts.PasswordHash) {
    h.scheme == SCHEME && h.params.Valid() && |h.salt| == h.params.saltLength
  }

  function Key(kdf: Argon2id.Kdf, h: Accounts.PasswordHash): Encoding.Bytes {
    kdf(h.secret, h.salt, h.params.iterations, h.params.memory, h.params.parallelism, h.params.keyLength)
  }

  /** The value does not collide with the one hashed. */
  predicate NoCollision(kdf: Argon2id.Kdf, h: Accounts.PasswordHash, value: string) {
    Key(kdf, h.(secret := value)) == Key(kdf, h) ==> value == h.secret
  }

  function Text(kdf: Argon2id.Kdf, h: Accounts.PasswordHash): string {
    Argon2id.Hash(kdf, h.params, h.salt, h.secret)
  }

  /** The stored text is accepted for a value exactly when the ideal hash is. */
  lemma VerifiesAlike(kdf: Argon2id.Kdf, hasher: Accounts.Hasher, h: Accounts.PasswordHash, value: string)
    requires Argon2id.IsKdf(kdf) && hasher.primary == SCHEME && IsArgon(h) && NoCollision(kdf, h, value)
    ensures Argon2id.Verify(kdf, Text(kdf, h), value) <==> hasher.Verify(h, value)
  {
    hide Argon2id.Verify, Argon2id.Hash;
    Argon2id.VerifyHash(kdf, h.params, h.salt, h.secret, value);
  }

  lemma StaleAlike(kdf: Argon2id.Kdf, hasher: Accounts.Hasher, h: Accounts.PasswordHash)
    requires Argon2id.IsKdf(kdf) && hasher.primary == SCHEME && IsArgon(h)
    ensures Argon2id.NeedsRehash(hasher.params, Text(kdf, h)) <==> hasher.NeedsRehash(h)
  {
    hide Argon2id.NeedsRehash, Argon2id.Hash;
    Argon2id.NeedsRehashHash(kdf, h.params, h.salt, h.secret, hasher.params);
  }

  /** Two stored texts are equal exactly when the ideal hashes are, so the
      compare-and-swap of a rehash may compare either. */
  lemma EqualAlike(kdf: Argon2id.Kdf, g: Accounts.PasswordHash, h: Accounts.PasswordHash)
    requires Argon2id.IsKdf(kdf) && IsArgon(g) && IsArgon(h) && NoCollision(kdf, g, h.secret)
    ensures Text(kdf, g) == Text(kdf, h) <==> g == h
  {
    hide Argon2id.Print, Argon2id.Parse;
    Argon2id.ParsePrint(g.params, g.salt, Key(kdf, g));
    Argon2id.ParsePrint(h.params, h.salt, Key(kdf, h));
  }
}
