// The encrypted file store of internal/keystore/efs/efs.go over the plain one of
// internal/keystore/fs/fs.go.
module Efs {
  import opened Wrappers
  import opened KeyTypes
  import opened Ciphertexts
  import opened Encryption

  const MAX_SIZE: nat := 1024 * 1024   // fs.Store.Get reads no more of a file

  datatype StoreError = InvalidName | KeyExists | KeyNotFound | Io | Crypto(e: Encryption.Error)

  // fs.validName: not empty, and without '/', '\' and '.'.
  predicate ValidName(name: Bytes) {
    name != [] && forall c :: c in name ==> c != 0x2F && c != 0x5C && c != 0x2E
  }

  const PREFIX: Bytes := [0x6E, 0x61, 0x6D, 0x65, 0x3D]   // "name="

  function Context(name: Bytes): Bytes { PREFIX + name }

  lemma ContextIsInjective(m: Bytes, n: Bytes)
    requires Context(m) == Context(n)
    ensures m == n
  {
    assert Context(m)[|PREFIX|..] == m && Context(n)[|PREFIX|..] == n;
  }

  function Truncated(b: Bytes): Bytes { if |b| <= MAX_SIZE then b else b[..MAX_SIZE] }

  // What Get makes of the content of a file.
  function Read(env: Env, k: SecretKey, name: Bytes, blob: Bytes): Result<Bytes, StoreError> {
    match Decrypted(env, k, Truncated(blob), Context(name))
    case Ok(v) => Ok(v)
    case Err(e) => Err(Crypto(e))
  }

  // A value survives exactly when its sealed form fits into 1 MiB and is no legacy envelope.
  lemma ReadsBackExactly(env: Env, k: SecretKey, random: Bytes, name: Bytes, value: Bytes)
    requires Lawful(env) && Usable(env, k) && |random| == RAND_SIZE
    ensures var blob := Sealed(env, k, random, value, Context(name));
      Read(env, k, name, blob) == Ok(value) <==> |value| + OVERHEAD <= MAX_SIZE && !IsEnvelope(env.parsers, blob)
  {
    var blob := Sealed(env, k, random, value, Context(name));
    DecryptUndoesEncryptExactly(env, k, random, value, Context(name));
    if |blob| > MAX_SIZE && Decrypted(env, k, Truncated(blob), Context(name)) == Ok(value) {
      NormalisedShrinks(env.parsers, Truncated(blob));
      OpenedLength(env, k, Normalised(env.parsers, Truncated(blob)), Context(name));
    }
  }

  // The AEAD refuses what was sealed under one context when it is opened under another. Stated of
  // one sealing and one other context; no AEAD can refuse all contexts that exist.
  predicate Refuses(env: Env, k: SecretKey, random: Bytes, value: Bytes, sealedFor: Bytes, openedFor: Bytes)
    requires |random| == RAND_SIZE
  {
    var iv, nonce := random[..IV_SIZE], random[IV_SIZE..];
    var key := env.aead.derive(k.cipher, k.key, iv);
    sealedFor != openedFor ==>
      env.aead.open(k.cipher, key, nonce, env.aead.seal(k.cipher, key, nonce, value, sealedFor), openedFor).None?
  }

  // What is shorter than the sealed form of a value never opens to the value.
  lemma ShorterIsDifferent(env: Env, k: SecretKey, name: Bytes, blob: Bytes, value: Bytes)
    requires Lawful(env) && |value| + OVERHEAD == |blob|
    requires |blob| > MAX_SIZE || IsEnvelope(env.parsers, blob)
    ensures Read(env, k, name, blob) != Ok(value)
  {
    var text := Truncated(blob);
    NormalisedShrinks(env.parsers, text);
    if Decrypted(env, k, text, Context(name)) == Ok(value) {
      OpenedLength(env, k, Normalised(env.parsers, text), Context(name));
    }
  }

  lemma SealedIsRefused(env: Env, k: SecretKey, random: Bytes, value: Bytes, m: Bytes, n: Bytes)
    requires Lawful(env) && Usable(env, k) && |random| == RAND_SIZE && m != n
    requires Refuses(env, k, random, value, Context(m), Context(n))
    ensures Opened(env, k, Sealed(env, k, random, value, Context(m)), Context(n)) == Err(Decryption)
  {
    if Context(m) == Context(n) { ContextIsInjective(m, n); }
    var iv, nonce := random[..IV_SIZE], random[IV_SIZE..];
    var sealed := env.aead.seal(k.cipher, env.aead.derive(k.cipher, k.key, iv), nonce, value, Context(m));
    assert |sealed| == |value| + TAG_SIZE;
    OpenedRaw(env, k, sealed, random, Context(n));
    assert Raw(env, k, sealed, random, Context(n)).None?;
  }

  // A file moved to a different name never yields its value, however long it is and whatever it looks
  // like; when it fits into 1 MiB and is no legacy envelope, it does not decrypt at all.
  lemma MovedFileIsRefused(env: Env, k: SecretKey, random: Bytes, value: Bytes, m: Bytes, n: Bytes)
    requires Lawful(env) && Usable(env, k) && |random| == RAND_SIZE && m != n
    requires Refuses(env, k, random, value, Context(m), Context(n))
    ensures var blob := Sealed(env, k, random, value, Context(m));
      && Read(env, k, n, blob) != Ok(value)
      && (|blob| <= MAX_SIZE && !IsEnvelope(env.parsers, blob) ==> Read(env, k, n, blob) == Err(Crypto(Decryption)))
  {
    var blob := Sealed(env, k, random, value, Context(m));
    OpenUndoesSeal(env, k, random, value, Context(m));
    if |blob| > MAX_SIZE || IsEnvelope(env.parsers, blob) {
      ShorterIsDifferent(env, k, n, blob, value);
    } else {
      NormalisedShrinks(env.parsers, blob);
      SealedIsRefused(env, k, random, value, m, n);
    }
  }

  predicate IsSealed(env: Env, k: SecretKey, name: Bytes, value: Bytes, random: Bytes, blob: Bytes) {
    |random| == RAND_SIZE && blob == Sealed(env, k, random, value, Context(name))
  }

  class Store {
    const env: Env
    const key: SecretKey
    var files: map<Bytes, Bytes>
    ghost var values: map<Bytes, Bytes>    // the map that clients see
    ghost var randoms: map<Bytes, Bytes>   // the randomness each file was sealed with

    ghost predicate Valid()
      reads this
    {
      && Usable(env, key)
      && files.Keys == values.Keys == randoms.Keys
      && forall n :: n in files ==> ValidName(n) && IsSealed(env, key, n, values[n], randoms[n], files[n])
    }

    constructor (env: Env, key: SecretKey)
      requires Usable(env, key)
      ensures Valid() && values == map[] && this.env == env && this.key == key
    {
      this.env, this.key := env, key;
      files, values, randoms := map[], map[], map[];
    }

    // A failing write leaves no file behind.
    method Create(name: Bytes, value: Bytes, random: Option<Bytes>, writes: bool) returns (r: Result<(), StoreError>)
      requires Valid() && (random.Some? ==> |random.value| == RAND_SIZE)
      modifies this
      ensures Valid()
      ensures r == if random.None? then Err(Crypto(NoRandomness))
                   else if !ValidName(name) then Err(InvalidName)
                   else if name in old(values) then Err(KeyExists)
                   else if !writes then Err(Io) else Ok(())
      ensures values == if r.Ok? then old(values)[name := value] else old(values)
      ensures r.Ok? ==> files == old(files)[name := Sealed(env, key, random.value, value, Context(name))]
      ensures r.Err? ==> files == old(files)
    {
      match Encrypted(env, key, random, value, Context(name))
      case Err(e) => r := Err(Crypto(e));
      case Ok(blob) =>
        if !ValidName(name) {
          return Err(InvalidName);
        }
        if name in files {
          return Err(KeyExists);
        }
        if !writes {
          return Err(Io);
        }
        assert IsSealed(env, key, name, value, random.value, blob);
        files := files[name := blob];
        values := values[name := value];
        randoms := randoms[name := random.value];
        r := Ok(());
    }

    // The value stored last under the name, exactly for the files that can be read back.
    method Get(name: Bytes) returns (r: Result<Bytes, StoreError>)
      requires Valid() && Lawful(env)
      ensures !ValidName(name) ==> r == Err(InvalidName)
      ensures ValidName(name) && name !in values ==> r == Err(KeyNotFound)
      ensures name in values ==>
        (r == Ok(values[name]) <==> |values[name]| + OVERHEAD <= MAX_SIZE && !IsEnvelope(env.parsers, files[name]))
    {
      if !ValidName(name) {
        return Err(InvalidName);
      }
      if name !in files {
        return Err(KeyNotFound);
      }
      ReadsBackExactly(env, key, randoms[name], name, values[name]);
      r := Read(env, key, name, files[name]);
    }

    method Delete(name: Bytes) returns (r: Result<(), StoreError>)
      requires Valid()
      modifies this
      ensures Valid()
      ensures r == if !ValidName(name) then Err(InvalidName)
                   else if name !in old(values) then Err(KeyNotFound) else Ok(())
      ensures values == old(values) - {name}
    {
      if !ValidName(name) {
        assert name !in files;
        assert values - {name} == values;
        return Err(InvalidName);
      }
      if name !in files {
        assert values - {name} == values;
        return Err(KeyNotFound);
      }
      files := files - {name};
      values := values - {name};
      randoms := randoms - {name};
      r := Ok(());
    }
  }
}
