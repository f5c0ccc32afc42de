// KeyVersion's two stored forms (internal/crypto/key.go): base64 of its protobuf message, which is
// the one written, and a JSON object, which older releases wrote.
module KeyVersions {
  import opened Wrappers
  import opened KeyTypes
  import Base64
  import Codec = KeyCodec

  type Error = Codec.Error

  // What encoding/json finds in a stored key; None when the text does not fit the struct.
  datatype KeyJson = KeyJson(bytes: Bytes, algorithm: string, createdAt: Time, createdBy: Bytes)

  // encoding/json, as far as it is used here.
  datatype Json = Json(valid: Bytes -> bool, readKey: Bytes -> Option<KeyJson>)

  predicate Space(c: byte) { c == 0x20 || c == 0x09 || c == 0x0A || c == 0x0D }

  // The first character of a JSON value: { [ " - 0..9 t f n (section 3 of RFC 8259).
  predicate StartsValue(c: byte) {
    c == 0x7B || c == 0x5B || c == 0x22 || c == 0x2D || 0x30 <= c <= 0x39 || c == 0x74 || c == 0x66 || c == 0x6E
  }

  predicate StartsJson(b: Bytes) {
    b != [] && (StartsValue(b[0]) || (Space(b[0]) && StartsJson(b[1..])))
  }

  // Only texts that start like a JSON value are valid.
  ghost predicate Lawful(json: Json) {
    forall b :: json.valid(b) ==> StartsJson(b)
  }

  const NANOS: int := 1_000_000_000

  // The ranges of the Go types behind a KeyVersion.
  predicate Typed(k: KeyVersion) {
    && |k.key.key| == KEY_SIZE && |k.hmacKey.key| == KEY_SIZE
    && -0x8000_0000_0000_0000 <= k.createdAt.seconds < 0x8000_0000_0000_0000 && 0 <= k.createdAt.nanos < NANOS
    && |k.createdBy| < 0x8000_0000_0000_0000
  }

  // ---------- MarshalPB and UnmarshalPB ----------

  function MarshalSecretKey(k: SecretKey): Result<Codec.PBKey, Error> {
    if !k.initialized then Err(Codec.NotInitialized)
    else if k.cipher != AES256 && k.cipher != CHACHA20 then Err(Codec.InvalidType)
    else Ok(Codec.PBKey(k.key, k.cipher))
  }

  function UnmarshalSecretKey(v: Codec.PBKey): Result<SecretKey, Error> {
    if |v.key| != KEY_SIZE then Err(Codec.InvalidLength)
    else if v.kind != AES256 && v.kind != CHACHA20 then Err(Codec.InvalidType)
    else Ok(SecretKey(v.kind, v.key, true))
  }

  function MarshalHMACKey(k: HMACKey): Result<Codec.PBKey, Error> {
    if !k.initialized then Err(Codec.NotInitialized)
    else if k.hash != SHA256 then Err(Codec.InvalidType)
    else Ok(Codec.PBKey(k.key, k.hash))
  }

  function UnmarshalHMACKey(v: Codec.PBKey): Result<HMACKey, Error> {
    if |v.key| != KEY_SIZE then Err(Codec.InvalidLength)
    else if v.kind != SHA256 then Err(Codec.InvalidType)
    else Ok(HMACKey(v.kind, v.key, true))
  }

  // Timestamp.AsTime: always UTC, with nanoseconds brought into range.
  function AsTime(t: Option<Codec.PBTime>): Time {
    match t
    case None => Time(0, 0, true)
    case Some(v) => Time(v.seconds + v.nanos / NANOS, v.nanos % NANOS, true)
  }

  function MarshalPB(k: KeyVersion): Result<Codec.PBKeyVersion, Error> {
    match MarshalSecretKey(k.key)
    case Err(e) => Err(e)
    case Ok(key) =>
      match MarshalHMACKey(k.hmacKey)
      case Err(e) => Err(e)
      case Ok(hmacKey) =>
        Ok(Codec.PBKeyVersion(Some(key), Some(hmacKey), Some(Codec.PBTime(k.createdAt.seconds, k.createdAt.nanos)),
            k.createdBy))
  }

  function UnmarshalPB(v: Codec.PBKeyVersion): Result<KeyVersion, Error> {
    if v.key.None? then Err(Codec.NilDereference)
    else
      match UnmarshalSecretKey(v.key.value)
      case Err(e) => Err(e)
      case Ok(key) =>
        if v.hmacKey.None? then Err(Codec.NilDereference)
        else
          match UnmarshalHMACKey(v.hmacKey.value)
          case Err(e) => Err(e)
          case Ok(hmacKey) => Ok(KeyVersion(key, hmacKey, AsTime(v.createdAt), v.createdBy))
  }

  // ---------- EncodeKeyVersion and ParseKeyVersion ----------

  function EncodeKeyVersion(k: KeyVersion): Result<Bytes, Error>
    requires Typed(k)
  {
    match MarshalPB(k)
    case Err(e) => Err(e)
    case Ok(v) =>
      match Codec.Marshal(v)
      case Err(e) => Err(e)
      case Ok(proto) => Ok(Base64.Encode(proto))
  }

  function ParseSecretKeyType(s: string): Option<nat> {
    if s == "AES256" || s == "AES256-GCM_SHA256" then Some(AES256)
    else if s == "ChaCha20" || s == "XCHACHA20-POLY1305" then Some(CHACHA20)
    else None
  }

  function NewSecretKey(cipher: nat, key: Bytes): Result<SecretKey, Error> {
    if |key| != KEY_SIZE then Err(Codec.InvalidLength) else Ok(SecretKey(cipher, key, true))
  }

  // The zero HMACKey.
  const NO_HMAC_KEY := HMACKey(0, seq(KEY_SIZE, _ => 0), false)

  function ParseJson(json: Json, b: Bytes): Result<KeyVersion, Error> {
    match json.readKey(b)
    case None => Err(Codec.Malformed)
    case Some(v) =>
      var cipher := if v.algorithm == "" then Some(AES256) else ParseSecretKeyType(v.algorithm);
      if cipher.None? then Err(Codec.UnknownAlgorithm)
      else
        match NewSecretKey(cipher.value, v.bytes)
        case Err(e) => Err(e)
        case Ok(key) => Ok(KeyVersion(key, NO_HMAC_KEY, v.createdAt, v.createdBy))
  }

  function ParseKeyVersion(json: Json, b: Bytes): Result<KeyVersion, Error> {
    if json.valid(b) then ParseJson(json, b)
    else
      match Base64.Decode(b)
      case None => Err(Codec.Malformed)
      case Some(raw) =>
        match Codec.Unmarshal(raw)
        case Err(e) => Err(e)
        case Ok(v) => UnmarshalPB(v)
  }

  // ---------- properties ----------

  predicate Encodable(k: KeyVersion) {
    && k.key.initialized && (k.key.cipher == AES256 || k.key.cipher == CHACHA20)
    && k.hmacKey.initialized && k.hmacKey.hash == SHA256
    && Codec.ValidUtf8(k.createdBy)
  }

  function InUTC(k: KeyVersion): KeyVersion { k.(createdAt := k.createdAt.(utc := true)) }

  lemma EncodesExactlyEncodable(k: KeyVersion)
    requires Typed(k)
    ensures EncodeKeyVersion(k).Ok? <==> Encodable(k)
  {
  }

  lemma MessageRoundTrip(k: KeyVersion)
    requires Typed(k) && Encodable(k)
    ensures MarshalPB(k).Ok? && UnmarshalPB(MarshalPB(k).value) == Ok(InUTC(k))
    ensures var v := MarshalPB(k).value; Codec.TypedVersion(v) && v.key.Some? && v.hmacKey.Some? && v.createdAt.Some?
  {
  }

  // The encoded key starts with 'C', which starts no JSON value.
  lemma EncodedIsNotJson(json: Json, proto: Bytes)
    requires Lawful(json) && |proto| > 0 && proto[0] == 0x0A
    ensures Base64.Encode(proto)[0] == 0x43 && !json.valid(Base64.Encode(proto))
  {
    var text := Base64.Encode(proto);
    assert Base64.S0(proto[0]) == 2 && Base64.Char(2) == 0x43;
    assert !StartsJson(text);
  }

  // Parsing what was encoded yields the key again, with its time in UTC, whatever JSON parser is
  // used.
  lemma ParseUndoesEncode(json: Json, k: KeyVersion)
    requires Lawful(json) && Typed(k) && Encodable(k)
    ensures EncodeKeyVersion(k).Ok? && ParseKeyVersion(json, EncodeKeyVersion(k).value) == Ok(InUTC(k))
  {
    MessageRoundTrip(k);
    var v := MarshalPB(k).value;
    Codec.UnmarshalUndoesMarshal(v);
    var proto := Codec.Marshal(v).value;
    Base64.DecodeUndoesEncode(proto);
    EncodedIsNotJson(json, proto);
  }

  // So the very same key comes back exactly for keys in UTC.
  lemma RoundTripExactlyInUTC(json: Json, k: KeyVersion)
    requires Lawful(json) && Typed(k) && Encodable(k)
    ensures ParseKeyVersion(json, EncodeKeyVersion(k).value) == Ok(k) <==> k.createdAt.utc
  {
    ParseUndoesEncode(json, k);
  }

  // Two keys with the same stored form are the same key, but for the location of their times.
  lemma EncodingIsInjective(json: Json, j: KeyVersion, k: KeyVersion)
    requires Lawful(json) && Typed(j) && Encodable(j) && Typed(k) && Encodable(k)
    requires EncodeKeyVersion(j) == EncodeKeyVersion(k)
    ensures InUTC(j) == InUTC(k)
  {
    ParseUndoesEncode(json, j);
    ParseUndoesEncode(json, k);
  }

  lemma {:induction false} MergedIsValid(fs: seq<Codec.Wire.Field>, v: Codec.PBKeyVersion)
    requires Codec.ValidUtf8(v.createdBy) && Codec.MergeVersion(fs, v).Some?
    ensures Codec.ValidUtf8(Codec.MergeVersion(fs, v).value.createdBy)
  {
    if fs != [] {
      MergedIsValid(fs[1..], Codec.MergeField(fs[0], v).value);
    }
  }

  // A key parsed from the current form can be encoded again, in UTC; a key parsed from the legacy
  // JSON form never can, as it has no HMAC key.
  lemma ParsedKeys(json: Json, b: Bytes)
    requires ParseKeyVersion(json, b).Ok?
    ensures var k := ParseKeyVersion(json, b).value;
      && |k.key.key| == KEY_SIZE && |k.hmacKey.key| == KEY_SIZE && k.key.initialized
      && (if json.valid(b) then !k.hmacKey.initialized && !Encodable(k) else Encodable(k) && k.createdAt.utc)
  {
    if !json.valid(b) {
      var raw := Base64.Decode(b).value;
      MergedIsValid(Codec.Wire.DecodeFields(raw).value, Codec.NO_VERSION);
    }
  }

  // Hence migrating a parsed current key by writing it anew is lossless.
  lemma ReencodeIsLossless(json: Json, b: Bytes)
    requires Lawful(json) && !json.valid(b) && ParseKeyVersion(json, b).Ok? && Typed(ParseKeyVersion(json, b).value)
    ensures var k := ParseKeyVersion(json, b).value;
      EncodeKeyVersion(k).Ok? && ParseKeyVersion(json, EncodeKeyVersion(k).value) == Ok(k)
  {
    ParsedKeys(json, b);
    ParseUndoesEncode(json, ParseKeyVersion(json, b).value);
  }
}
