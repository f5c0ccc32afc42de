// SecretKey.Encrypt and SecretKey.Decrypt of internal/crypto/key.go over an abstract AEAD.
module Encryption {
  import opened Wrappers
  import opened KeyTypes
  import opened Ciphertexts

  // An AEAD as in section 2 of RFC 5116, and the derivation of its key from a secret key and an IV:
  // HMAC-SHA-256 and AES-256-GCM, or HChaCha20 and ChaCha20-Poly1305.
  datatype Aead = Aead(
    derive: (nat, Bytes, Bytes) -> Bytes,                      // cipher, secret key, IV
    seal: (nat, Bytes, Bytes, Bytes, Bytes) -> Bytes,          // cipher, key, nonce, plaintext, context
    open: (nat, Bytes, Bytes, Bytes, Bytes) -> Option<Bytes>   // cipher, key, nonce, ciphertext, context
  )

  const TAG_SIZE: nat := 16
  const OVERHEAD: nat := RAND_SIZE + TAG_SIZE

  // Opening undoes sealing, and a plaintext is always 16 bytes shorter than what it was opened from.
  ghost predicate LawfulAead(a: Aead) {
    && (forall c, k, n, p, ad :: a.open(c, k, n, a.seal(c, k, n, p, ad), ad) == Some(p))
    && (forall c, k, n, p, ad :: |a.seal(c, k, n, p, ad)| == |p| + TAG_SIZE)
    && (forall c, k, n, x, ad :: a.open(c, k, n, x, ad).Some? ==> |a.open(c, k, n, x, ad).value| + TAG_SIZE == |x|)
  }

  // The libraries and the build mode.
  datatype Env = Env(aead: Aead, parsers: Parsers, fips: bool)

  ghost predicate Lawful(env: Env) { LawfulAead(env.aead) && LawfulParsers(env.parsers) }

  datatype Error =
    | Uninitialized    // panics
    | UnknownCipher    // panics
    | NotAvailable     // the cipher is not available in FIPS mode
    | NoRandomness
    | Decryption       // kes.ErrDecrypt

  // The checks that Encrypt and Decrypt make first.
  function Refused(env: Env, k: SecretKey): Option<Error> {
    if !k.initialized then Some(Uninitialized)
    else if env.fips && k.cipher != AES256 then Some(NotAvailable)
    else None
  }

  predicate Usable(env: Env, k: SecretKey) {
    Refused(env, k).None? && (k.cipher == AES256 || k.cipher == CHACHA20)
  }

  function Sealed(env: Env, k: SecretKey, random: Bytes, plaintext: Bytes, context: Bytes): Bytes
    requires |random| == RAND_SIZE
  {
    var iv, nonce := random[..IV_SIZE], random[IV_SIZE..];
    env.aead.seal(k.cipher, env.aead.derive(k.cipher, k.key, iv), nonce, plaintext, context) + random
  }

  // random is what rand.Read yields.
  function Encrypted(env: Env, k: SecretKey, random: Option<Bytes>, plaintext: Bytes, context: Bytes)
    : Result<Bytes, Error>
    requires random.Some? ==> |random.value| == RAND_SIZE
  {
    if Refused(env, k).Some? then Err(Refused(env, k).value)
    else if random.None? then Err(NoRandomness)
    else if k.cipher != AES256 && k.cipher != CHACHA20 then Err(UnknownCipher)
    else Ok(Sealed(env, k, random.value, plaintext, context))
  }

  // A ciphertext in the current format.
  function Opened(env: Env, k: SecretKey, c: Bytes, context: Bytes): Result<Bytes, Error> {
    if |c| <= RAND_SIZE then Err(Decryption)
    else if k.cipher != AES256 && k.cipher != CHACHA20 then Err(UnknownCipher)
    else
      var sealed, random := c[..|c| - RAND_SIZE], c[|c| - RAND_SIZE..];
      var iv, nonce := random[..IV_SIZE], random[IV_SIZE..];
      match env.aead.open(k.cipher, env.aead.derive(k.cipher, k.key, iv), nonce, sealed, context)
      case Some(p) => Ok(p)
      case None => Err(Decryption)
  }

  function Decrypted(env: Env, k: SecretKey, ciphertext: Bytes, context: Bytes): Result<Bytes, Error> {
    if Refused(env, k).Some? then Err(Refused(env, k).value)
    else Opened(env, k, Normalised(env.parsers, ciphertext), context)
  }

  // ---------- properties ----------

  // The AEAD's answer to a ciphertext in its two parts.
  function Raw(env: Env, k: SecretKey, sealed: Bytes, random: Bytes, context: Bytes): Option<Bytes>
    requires |random| == RAND_SIZE
  {
    env.aead.open(k.cipher, env.aead.derive(k.cipher, k.key, random[..IV_SIZE]), random[IV_SIZE..], sealed, context)
  }

  lemma OpenedRaw(env: Env, k: SecretKey, sealed: Bytes, random: Bytes, context: Bytes)
    requires |random| == RAND_SIZE && sealed != [] && (k.cipher == AES256 || k.cipher == CHACHA20)
    ensures Opened(env, k, sealed + random, context) ==
      match Raw(env, k, sealed, random, context) case Some(p) => Ok(p) case None => Err(Decryption)
  {
    var c := sealed + random;
    assert c[..|c| - RAND_SIZE] == sealed && c[|c| - RAND_SIZE..] == random;
  }

  lemma RawLength(env: Env, k: SecretKey, sealed: Bytes, random: Bytes, context: Bytes)
    requires LawfulAead(env.aead) && |random| == RAND_SIZE && Raw(env, k, sealed, random, context).Some?
    ensures |Raw(env, k, sealed, random, context).value| + TAG_SIZE == |sealed|
  {}

  lemma OpenUndoesSeal(env: Env, k: SecretKey, random: Bytes, plaintext: Bytes, context: Bytes)
    requires LawfulAead(env.aead) && Usable(env, k) && |random| == RAND_SIZE
    ensures |Sealed(env, k, random, plaintext, context)| == |plaintext| + OVERHEAD
    ensures Opened(env, k, Sealed(env, k, random, plaintext, context), context) == Ok(plaintext)
  {
    var iv, nonce := random[..IV_SIZE], random[IV_SIZE..];
    var key := env.aead.derive(k.cipher, k.key, iv);
    var sealed := env.aead.seal(k.cipher, key, nonce, plaintext, context);
    assert |sealed| == |plaintext| + TAG_SIZE;
    OpenedRaw(env, k, sealed, random, context);
    assert env.aead.open(k.cipher, key, nonce, sealed, context) == Some(plaintext);
  }

  lemma OpenedLength(env: Env, k: SecretKey, c: Bytes, context: Bytes)
    requires LawfulAead(env.aead) && Opened(env, k, c, context).Ok?
    ensures |Opened(env, k, c, context).value| + OVERHEAD == |c|
  {
  }

  // Decrypt yields the plaintext that was encrypted if and only if the ciphertext does not happen to
  // be a legacy envelope: for both ciphers, every plaintext, context and randomness.
  lemma DecryptUndoesEncryptExactly(env: Env, k: SecretKey, random: Bytes, plaintext: Bytes, context: Bytes)
    requires Lawful(env) && Usable(env, k) && |random| == RAND_SIZE
    ensures var c := Encrypted(env, k, Some(random), plaintext, context);
      && c.Ok? && |c.value| == |plaintext| + OVERHEAD
      && (Decrypted(env, k, c.value, context) == Ok(plaintext) <==> !IsEnvelope(env.parsers, c.value))
  {
    OpenUndoesSeal(env, k, random, plaintext, context);
    var c := Sealed(env, k, random, plaintext, context);
    NormalisedShrinks(env.parsers, c);
    if Decrypted(env, k, c, context) == Ok(plaintext) {
      OpenedLength(env, k, Normalised(env.parsers, c), context);
    }
  }

  // The plaintext is sealed to these bytes, before the tag.
  predicate SealsTo(env: Env, k: SecretKey, random: Bytes, context: Bytes, p: Bytes, body: Bytes)
    requires |random| == RAND_SIZE
  {
    |p| == |body| && body <= Sealed(env, k, random, p, context)
  }

  ghost predicate HasPlaintext(env: Env, k: SecretKey, random: Bytes, context: Bytes, body: Bytes)
    requires |random| == RAND_SIZE
  {
    exists p: Bytes :: SealsTo(env, k, random, context, p, body)
  }

  // The cipher is a stream cipher: the sealed bytes before the tag can be any bytes at all. AES-GCM
  // and ChaCha20-Poly1305 are of this kind.
  ghost predicate AnyBody(env: Env, k: SecretKey, random: Bytes, context: Bytes)
    requires |random| == RAND_SIZE
  {
    forall body: Bytes :: HasPlaintext(env, k, random, context, body)
  }

  const ZERO_TAG: Bytes := [0, 0, 0, 0, 0, 0, 0, 0, 0, 0, 0, 0, 0, 0, 0, 0]

  // An AEAD that leaves the plaintext as it is and appends 16 zero bytes.
  function PlainSeal(p: Bytes): Bytes { p + ZERO_TAG }

  function PlainOpen(x: Bytes): Option<Bytes> {
    if |x| >= TAG_SIZE && x[|x| - TAG_SIZE..] == ZERO_TAG then Some(x[..|x| - TAG_SIZE]) else None
  }

  lemma PlainOpenUndoesSeal(p: Bytes)
    ensures PlainOpen(PlainSeal(p)) == Some(p)
  {
    var x := PlainSeal(p);
    assert x[|x| - TAG_SIZE..] == ZERO_TAG && x[..|x| - TAG_SIZE] == p;
  }

  function PlainEnv(): Env {
    var derive := (c: nat, k: Bytes, iv: Bytes) => k;
    var seal := (c: nat, k: Bytes, n: Bytes, p: Bytes, ad: Bytes) => PlainSeal(p);
    var open := (c: nat, k: Bytes, n: Bytes, x: Bytes, ad: Bytes) => PlainOpen(x);
    Env(Aead(derive, seal, open), Parsers((x: Bytes) => true, (x: Bytes) => None), false)
  }

  // The two hypotheses of EnvelopeByChance go together.
  lemma AnyBodyIsPossible(k: SecretKey, random: Bytes, context: Bytes)
    requires |random| == RAND_SIZE
    ensures Lawful(PlainEnv()) && AnyBody(PlainEnv(), k, random, context)
  {
    var env := PlainEnv();
    forall c, key, n, p, ad ensures env.aead.open(c, key, n, env.aead.seal(c, key, n, p, ad), ad) == Some(p) {
      PlainOpenUndoesSeal(p);
    }
    forall body: Bytes ensures HasPlaintext(env, k, random, context, body) {
      assert Sealed(env, k, random, body, context) == body + (ZERO_TAG + random);
      assert SealsTo(env, k, random, context, body, body);
    }
  }

  // It can happen, for every key, randomness and context: some plaintext is encrypted to what reads
  // as a MessagePack envelope of the tag and the randomness, and then decrypts to something else or
  // not at all.
  lemma EnvelopeByChance(env: Env, k: SecretKey, random: Bytes, context: Bytes, e: Envelope, w: Widths)
    returns (plaintext: Bytes)
    requires Lawful(env) && Usable(env, k) && |random| == RAND_SIZE && AnyBody(env, k, random, context)
    requires EnvelopeFits(e, w) && |e.iv| == IV_SIZE && |e.nonce| == NONCE_SIZE && |e.bytes| == OVERHEAD
    requires env.parsers.knownAlgorithm(e.algorithm)
    ensures var c := Encrypted(env, k, Some(random), plaintext, context);
      && c.Ok? && c.value != [] && c.value[0] == 0x95 && IsEnvelope(env.parsers, c.value)
      && Decrypted(env, k, c.value, context) != Ok(plaintext)
  {
    var head := WrapHead(e, w);
    assert HasPlaintext(env, k, random, context, head);
    plaintext :| SealsTo(env, k, random, context, plaintext, head);
    var c := Sealed(env, k, random, plaintext, context);
    OpenUndoesSeal(env, k, random, plaintext, context);
    assert c == head + c[|head|..];
    HeadMakesEnvelope(env.parsers, e, w, c[|head|..]);
    DecryptUndoesEncryptExactly(env, k, random, plaintext, context);
  }

  // A raw ciphertext decrypts the same in either legacy envelope.
  lemma EnvelopesDecryptAlike(env: Env, k: SecretKey, c: Envelope, w: Widths, text: Bytes, json: EnvelopeJson,
                              context: Bytes)
    requires Refused(env, k).None?
    requires EnvelopeFits(c, w) && |c.iv| == IV_SIZE && |c.nonce| == NONCE_SIZE &&
             env.parsers.knownAlgorithm(c.algorithm)
    requires text != [] && text[0] == 0x7B && env.parsers.readEnvelope(text) == Some(json)
    requires json.iv == c.iv && json.nonce == c.nonce && json.bytes == c.bytes
    requires json.aead == "AES-256-GCM-HMAC-SHA-256" || json.aead == "ChaCha20Poly1305"
    ensures var raw := Opened(env, k, c.bytes + c.iv + c.nonce, context);
      Decrypted(env, k, WrapBinary(c, w), context) == raw == Decrypted(env, k, text, context)
  {
    WrappedNormalises(env.parsers, c, w);
    JsonNormalises(env.parsers, text, json);
  }

  // The envelope of a raw ciphertext.
  function EnvelopeOf(c: Bytes, random: Bytes, algorithm: Bytes, id: Bytes): Envelope
    requires |random| == RAND_SIZE <= |c|
  {
    Envelope(algorithm, id, random[..IV_SIZE], random[IV_SIZE..], c[..|c| - RAND_SIZE])
  }

  // What was encrypted decrypts out of the MessagePack envelope, whether or not its raw form looks
  // like one.
  lemma WrappedRoundTrip(env: Env, k: SecretKey, random: Bytes, plaintext: Bytes, context: Bytes,
                         algorithm: Bytes, id: Bytes, w: Widths)
    requires LawfulAead(env.aead) && Usable(env, k) && |random| == RAND_SIZE && env.parsers.knownAlgorithm(algorithm)
    requires EnvelopeFits(EnvelopeOf(Sealed(env, k, random, plaintext, context), random, algorithm, id), w)
    ensures var e := EnvelopeOf(Sealed(env, k, random, plaintext, context), random, algorithm, id);
      Decrypted(env, k, WrapBinary(e, w), context) == Ok(plaintext)
  {
    var c := Sealed(env, k, random, plaintext, context);
    var e := EnvelopeOf(c, random, algorithm, id);
    OpenUndoesSeal(env, k, random, plaintext, context);
    WrappedNormalises(env.parsers, e, w);
    assert e.bytes + e.iv + e.nonce == c;
  }

  // ---------- the methods on byte buffers ----------

  // extend: the same buffer when it has room for n more bytes, a copy otherwise.
  method Extend(b: array<byte>, len: nat, n: nat) returns (c: array<byte>)
    requires len <= b.Length
    ensures c.Length >= len + n && c[..len] == b[..len]
    ensures if b.Length >= len + n then c == b else fresh(c)
  {
    if b.Length >= len + n {
      return b;
    }
    c := new byte[len + n];
    var i := 0;
    while i < len
      invariant i <= len && c[..i] == b[..i]
    {
      c[i] := b[i];
      i := i + 1;
    }
  }

  // The ciphertext is built in the plaintext's own buffer when that has 44 bytes of spare room.
  method Encrypt(env: Env, k: SecretKey, random: Option<Bytes>, plaintext: array<byte>, len: nat, context: Bytes)
    returns (r: Result<nat, Error>, out: array<byte>)
    requires LawfulAead(env.aead) && len <= plaintext.Length
    requires random.Some? ==> |random.value| == RAND_SIZE
    modifies plaintext
    ensures match Encrypted(env, k, random, old(plaintext[..len]), context)
            case Ok(c) => r.Ok? && r.value <= out.Length && out[..r.value] == c
            case Err(e) => r == Err(e)
    ensures r.Err? || plaintext.Length < len + OVERHEAD ==> plaintext[..] == old(plaintext[..])
    ensures r.Ok? ==> if plaintext.Length >= len + OVERHEAD then out == plaintext else fresh(out)
  {
    out := plaintext;
    if Refused(env, k).Some? {
      return Err(Refused(env, k).value), out;
    }
    if random.None? {
      return Err(NoRandomness), out;
    }
    if k.cipher != AES256 && k.cipher != CHACHA20 {
      return Err(UnknownCipher), out;
    }
    var iv, nonce := random.value[..IV_SIZE], random.value[IV_SIZE..];
    var sealed := env.aead.seal(k.cipher, env.aead.derive(k.cipher, k.key, iv), nonce, plaintext[..len], context);
    var ciphertext := Extend(plaintext, len, OVERHEAD);
    var c1 := AppendBytes(ciphertext, 0, sealed);
    out := AppendBytes(c1, |sealed|, random.value);
    r := Ok(|sealed| + RAND_SIZE);
  }

  // The part of Decrypt after the ciphertext has been brought into the current format: the plaintext
  // is opened into the same buffer. What the buffer holds when the AEAD refuses is the library's choice:
  // it may clear it.
  method OpenInPlace(env: Env, k: SecretKey, b: array<byte>, m: nat, context: Bytes) returns (r: Result<nat, Error>)
    requires LawfulAead(env.aead) && m <= b.Length
    modifies b
    ensures match Opened(env, k, old(b[..m]), context)
            case Ok(p) => r.Ok? && r.value <= b.Length && b[..r.value] == p
            case Err(e) => r == Err(e)
    ensures m <= RAND_SIZE || (k.cipher != AES256 && k.cipher != CHACHA20) ==> b[..] == old(b[..])
  {
    if m <= RAND_SIZE {
      return Err(Decryption);
    }
    if k.cipher != AES256 && k.cipher != CHACHA20 {
      return Err(UnknownCipher);
    }
    var sealed, random := b[..m - RAND_SIZE], b[m - RAND_SIZE..m];
    assert b[..m] == sealed + random;
    OpenedRaw(env, k, sealed, random, context);
    match Raw(env, k, sealed, random, context)
    case None => r := Err(Decryption);
    case Some(p) =>
      RawLength(env, k, sealed, random, context);
      var _ := AppendBytes(b, 0, p);
      r := Ok(|p|);
  }

  method Decrypt(env: Env, k: SecretKey, ciphertext: array<byte>, len: nat, context: Bytes)
    returns (r: Result<nat, Error>)
    requires Lawful(env) && len <= ciphertext.Length
    modifies ciphertext
    ensures match Decrypted(env, k, old(ciphertext[..len]), context)
            case Ok(p) => r.Ok? && r.value <= ciphertext.Length && ciphertext[..r.value] == p
            case Err(e) => r == Err(e)
  {
    if Refused(env, k).Some? {
      return Err(Refused(env, k).value);
    }
    var b, m := ParseCiphertext(env.parsers, ciphertext, len);
    r := OpenInPlace(env, k, b, m, context);
  }
}
