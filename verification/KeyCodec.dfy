// EncodeKeyVersion and ParseKeyVersion of internal/crypto/key.go with the messages of
// internal/protobuf/crypto.proto.
module KeyCodec {
  import opened Wrappers
  import opened KeyTypes
  import opened Wire

  datatype Error =
    | NotInitialized | InvalidType | InvalidLength | InvalidUtf8 | Malformed | UnknownAlgorithm
    | NilDereference   // a run-time panic: the message has no key or no HMAC key

  // ---------- messages ----------

  // SecretKey and HMACKey have the same shape: bytes Key = 1, uint32 Type or Hash = 2.
  datatype PBKey = PBKey(key: Bytes, kind: nat)
  datatype PBTime = PBTime(seconds: int, nanos: int)
  datatype PBKeyVersion = PBKeyVersion(key: Option<PBKey>, hmacKey: Option<PBKey>, createdAt: Option<PBTime>,
      createdBy: Bytes)

  const NO_KEY := PBKey([], 0)
  const NO_TIME := PBTime(0, 0)
  const NO_VERSION := PBKeyVersion(None, None, None, [])

  // int64 and int32 values travel as 64-bit two's complement.
  function Unsigned(x: int): nat
    requires -0x8000_0000_0000_0000 <= x < 0x8000_0000_0000_0000
  {
    if x < 0 then x + UINT64 else x
  }

  function ToInt64(v: nat): int { if v < 0x8000_0000_0000_0000 then v else v - UINT64 }

  function ToInt32(v: nat): int {
    var w := v % UINT32;
    if w < 0x8000_0000 then w else w - UINT32
  }

  predicate TypedKey(v: PBKey) { v.kind < UINT32 && |v.key| < UINT32 }

  predicate TypedTime(v: PBTime) {
    && -0x8000_0000_0000_0000 <= v.seconds < 0x8000_0000_0000_0000
    && -0x8000_0000 <= v.nanos < 0x8000_0000
  }

  // The fields written: proto3 leaves out a scalar that is zero, a present message never.
  function KeyFields(v: PBKey): seq<Field> {
    (if v.key != [] then [Len(1, v.key)] else []) + (if v.kind != 0 then [Varint(2, v.kind)] else [])
  }

  function TimeFields(v: PBTime): seq<Field>
    requires TypedTime(v)
  {
    (if v.seconds != 0 then [Varint(1, Unsigned(v.seconds))] else []) +
    (if v.nanos != 0 then [Varint(2, Unsigned(v.nanos))] else [])
  }

  function VersionFields(v: PBKeyVersion): seq<Field>
    requires v.createdAt.Some? ==> TypedTime(v.createdAt.value)
  {
    (if v.key.Some? then [Len(1, EncodeFields(KeyFields(v.key.value)))] else []) +
    (if v.hmacKey.Some? then [Len(2, EncodeFields(KeyFields(v.hmacKey.value)))] else []) +
    (if v.createdAt.Some? then [Len(3, EncodeFields(TimeFields(v.createdAt.value)))] else []) +
    (if v.createdBy != [] then [Len(4, v.createdBy)] else [])
  }

  // The reader takes fields in any order: the last scalar wins, a repeated message is merged, and a
  // field of an unknown number or of another wire type is skipped.
  function MergeKey(fs: seq<Field>, v: PBKey): PBKey {
    if fs == [] then v
    else
      MergeKey(fs[1..], match fs[0]
                        case Len(1, data) => v.(key := data)
                        case Varint(2, x) => v.(kind := x % UINT32)
                        case _ => v)
  }

  function MergeTime(fs: seq<Field>, v: PBTime): PBTime {
    if fs == [] then v
    else
      MergeTime(fs[1..], match fs[0]
                         case Varint(1, x) => v.(seconds := ToInt64(x))
                         case Varint(2, x) => v.(nanos := ToInt32(x))
                         case _ => v)
  }

  function OrElse<T>(o: Option<T>, default: T): T { if o.Some? then o.value else default }

  function MergeField(f: Field, v: PBKeyVersion): Option<PBKeyVersion> {
    match f
    case Len(1, data) =>
      (match DecodeFields(data) case None => None
       case Some(fs) => Some(v.(key := Some(MergeKey(fs, OrElse(v.key, NO_KEY))))))
    case Len(2, data) =>
      (match DecodeFields(data) case None => None
       case Some(fs) => Some(v.(hmacKey := Some(MergeKey(fs, OrElse(v.hmacKey, NO_KEY))))))
    case Len(3, data) =>
      (match DecodeFields(data) case None => None
       case Some(fs) => Some(v.(createdAt := Some(MergeTime(fs, OrElse(v.createdAt, NO_TIME))))))
    case Len(4, data) => if ValidUtf8(data) then Some(v.(createdBy := data)) else None
    case _ => Some(v)
  }

  function MergeVersion(fs: seq<Field>, v: PBKeyVersion): Option<PBKeyVersion> {
    if fs == [] then Some(v)
    else match MergeField(fs[0], v) case None => None case Some(v') => MergeVersion(fs[1..], v')
  }

  // Section 4 of RFC 3629.
  predicate ValidUtf8(b: Bytes) {
    if b == [] then true
    else if b[0] < 0x80 then ValidUtf8(b[1..])
    else if 0xC2 <= b[0] <= 0xDF then |b| >= 2 && Tail(b[1]) && ValidUtf8(b[2..])
    else if 0xE0 <= b[0] <= 0xEF then
      && |b| >= 3 && Tail(b[1]) && Tail(b[2])
      && (b[0] == 0xE0 ==> b[1] >= 0xA0) && (b[0] == 0xED ==> b[1] <= 0x9F) && ValidUtf8(b[3..])
    else if 0xF0 <= b[0] <= 0xF4 then
      && |b| >= 4 && Tail(b[1]) && Tail(b[2]) && Tail(b[3])
      && (b[0] == 0xF0 ==> b[1] >= 0x90) && (b[0] == 0xF4 ==> b[1] <= 0x8F) && ValidUtf8(b[4..])
    else false
  }

  predicate Tail(c: byte) { 0x80 <= c <= 0xBF }

  lemma {:induction false} VarintLength(v: nat, k: nat)
    requires k <= 9 && v < Limit(k)
    ensures |EncodeVarint(v)| <= 10 - k
    decreases 9 - k
  {
    if v >= 128 { VarintLength(v / 128, k + 1); }
  }

  lemma FieldLength(f: Field)
    requires WellFormed(f)
    ensures |EncodeField(f)| <= 20 + if f.Varint? then 0 else |f.data|
  {
    VarintLength(f.num * 8 + WireType(f), 0);
    if f.Varint? { VarintLength(f.v, 0); }
    if f.Len? { VarintLength(|f.data|, 0); }
  }

  const MAX_FIELD: nat := 0x2_0000_0000

  lemma FieldsLength(fs: seq<Field>)
    requires forall f :: f in fs ==> WellFormed(f) && (f.Varint? || |f.data| <= UINT32)
    ensures |EncodeFields(fs)| <= |fs| * MAX_FIELD
  {
    if fs != [] {
      FieldLength(fs[0]);
      FieldsLength(fs[1..]);
    }
  }

  lemma KeyMerges(v: PBKey)
    requires TypedKey(v)
    ensures MergeKey(KeyFields(v), NO_KEY) == v
  {
    var fs := KeyFields(v);
    if v.key != [] && v.kind != 0 {
      assert fs[0] == Len(1, v.key) && fs[1..] == [Varint(2, v.kind)];
      assert MergeKey(fs, NO_KEY) == MergeKey(fs[1..], PBKey(v.key, 0));
      assert fs[1..][1..] == [];
      assert MergeKey(fs[1..], PBKey(v.key, 0)) == MergeKey(fs[1..][1..], v);
    } else if fs != [] {
      assert fs[1..] == [];
    }
  }

  lemma KeyFieldsFit(v: PBKey)
    requires TypedKey(v)
    ensures forall f :: f in KeyFields(v) ==> WellFormed(f)
    ensures |EncodeFields(KeyFields(v))| < UINT64
  {
    FieldsLength(KeyFields(v));
    assert |KeyFields(v)| <= 2;
  }

  lemma KeyRoundTrip(v: PBKey)
    requires TypedKey(v)
    ensures match DecodeFields(EncodeFields(KeyFields(v))) case None => false case Some(fs) => MergeKey(fs, NO_KEY) == v
  {
    KeyFieldsFit(v);
    FieldsRoundTrip(KeyFields(v));
    KeyMerges(v);
  }

  lemma SignedRoundTrip(x: int)
    requires -0x8000_0000_0000_0000 <= x < 0x8000_0000_0000_0000
    ensures Unsigned(x) < UINT64 && ToInt64(Unsigned(x)) == x
    ensures -0x8000_0000 <= x < 0x8000_0000 ==> ToInt32(Unsigned(x)) == x
  {
  }

  lemma TimeMerges(v: PBTime)
    requires TypedTime(v)
    ensures MergeTime(TimeFields(v), NO_TIME) == v
  {
    var fs := TimeFields(v);
    SignedRoundTrip(v.seconds);
    SignedRoundTrip(v.nanos);
    if v.seconds != 0 && v.nanos != 0 {
      assert fs[0] == Varint(1, Unsigned(v.seconds)) && fs[1..] == [Varint(2, Unsigned(v.nanos))];
      assert MergeTime(fs, NO_TIME) == MergeTime(fs[1..], PBTime(v.seconds, 0));
      assert fs[1..][1..] == [];
      assert MergeTime(fs[1..], PBTime(v.seconds, 0)) == MergeTime(fs[1..][1..], v);
    } else if fs != [] {
      assert fs[1..] == [];
    }
  }

  lemma TimeFieldsFit(v: PBTime)
    requires TypedTime(v)
    ensures forall f :: f in TimeFields(v) ==> WellFormed(f)
    ensures |EncodeFields(TimeFields(v))| < UINT64
  {
    SignedRoundTrip(v.seconds);
    SignedRoundTrip(v.nanos);
    FieldsLength(TimeFields(v));
    assert |TimeFields(v)| <= 2;
  }

  lemma TimeRoundTrip(v: PBTime)
    requires TypedTime(v)
    ensures match DecodeFields(EncodeFields(TimeFields(v)))
            case None => false
            case Some(fs) => MergeTime(fs, NO_TIME) == v
  {
    TimeFieldsFit(v);
    FieldsRoundTrip(TimeFields(v));
    TimeMerges(v);
  }

  predicate TypedVersion(v: PBKeyVersion) {
    && (v.key.Some? ==> TypedKey(v.key.value)) && (v.hmacKey.Some? ==> TypedKey(v.hmacKey.value))
    && (v.createdAt.Some? ==> TypedTime(v.createdAt.value))
    && ValidUtf8(v.createdBy) && |v.createdBy| < UINT64
  }

  lemma MergeFirst(fs: seq<Field>, f: Field, rest: seq<Field>, v: PBKeyVersion)
    requires fs == [f] + rest && MergeField(f, v).Some?
    ensures MergeVersion(fs, v) == MergeVersion(rest, MergeField(f, v).value)
  {
    assert fs[1..] == rest;
  }

  lemma MergeThree(f1: Field, f2: Field, f3: Field, last: seq<Field>,
                   v0: PBKeyVersion, v1: PBKeyVersion, v2: PBKeyVersion, v3: PBKeyVersion)
    requires MergeField(f1, v0) == Some(v1) && MergeField(f2, v1) == Some(v2) && MergeField(f3, v2) == Some(v3)
    ensures MergeVersion([f1] + ([f2] + ([f3] + last)), v0) == MergeVersion(last, v3)
  {
    MergeFirst([f1] + ([f2] + ([f3] + last)), f1, [f2] + ([f3] + last), v0);
    MergeFirst([f2] + ([f3] + last), f2, [f3] + last, v1);
    MergeFirst([f3] + last, f3, last, v2);
  }

  lemma VersionFieldsWellFormed(v: PBKeyVersion)
    requires TypedVersion(v)
    ensures forall f :: f in VersionFields(v) ==> WellFormed(f)
  {
    if v.key.Some? { KeyFieldsFit(v.key.value); }
    if v.hmacKey.Some? { KeyFieldsFit(v.hmacKey.value); }
    if v.createdAt.Some? { TimeFieldsFit(v.createdAt.value); }
  }

  lemma PartsMerge(key: PBKey, at: PBTime, v: PBKeyVersion)
    requires TypedKey(key) && TypedTime(at)
    ensures v.key.None? ==> MergeField(Len(1, EncodeFields(KeyFields(key))), v) == Some(v.(key := Some(key)))
    ensures v.hmacKey.None? ==> MergeField(Len(2, EncodeFields(KeyFields(key))), v) == Some(v.(hmacKey := Some(key)))
    ensures v.createdAt.None? ==> MergeField(Len(3, EncodeFields(TimeFields(at))), v) == Some(v.(createdAt := Some(at)))
  {
    KeyRoundTrip(key);
    TimeRoundTrip(at);
  }

  // A message with all its parts present, as MarshalPB makes them.
  lemma VersionMerges(v: PBKeyVersion)
    requires TypedVersion(v) && v.key.Some? && v.hmacKey.Some? && v.createdAt.Some?
    ensures MergeVersion(VersionFields(v), NO_VERSION) == Some(v)
  {
    var f1 := Len(1, EncodeFields(KeyFields(v.key.value)));
    var f2 := Len(2, EncodeFields(KeyFields(v.hmacKey.value)));
    var f3 := Len(3, EncodeFields(TimeFields(v.createdAt.value)));
    var last := if v.createdBy != [] then [Len(4, v.createdBy)] else [];
    var v1 := NO_VERSION.(key := v.key);
    var v2 := v1.(hmacKey := v.hmacKey);
    var v3 := v2.(createdAt := v.createdAt);
    assert MergeField(f1, NO_VERSION) == Some(v1) by { PartsMerge(v.key.value, v.createdAt.value, NO_VERSION); }
    assert MergeField(f2, v1) == Some(v2) by { PartsMerge(v.hmacKey.value, v.createdAt.value, v1); }
    assert MergeField(f3, v2) == Some(v3) by { PartsMerge(v.hmacKey.value, v.createdAt.value, v2); }
    assert VersionFields(v) == [f1] + ([f2] + ([f3] + last));
    MergeThree(f1, f2, f3, last, NO_VERSION, v1, v2, v3);
    if last != [] { MergeFirst(last, last[0], [], v3); }
  }

  function Marshal(v: PBKeyVersion): Result<Bytes, Error>
    requires v.createdAt.Some? ==> TypedTime(v.createdAt.value)
  {
    if !ValidUtf8(v.createdBy) then Err(InvalidUtf8) else Ok(EncodeFields(VersionFields(v)))
  }

  function Unmarshal(b: Bytes): Result<PBKeyVersion, Error> {
    match DecodeFields(b)
    case None => Err(Malformed)
    case Some(fs) => match MergeVersion(fs, NO_VERSION) case None => Err(Malformed) case Some(v) => Ok(v)
  }

  lemma UnmarshalUndoesMarshal(v: PBKeyVersion)
    requires TypedVersion(v) && v.key.Some? && v.hmacKey.Some? && v.createdAt.Some?
    ensures Marshal(v).Ok? && Unmarshal(Marshal(v).value) == Ok(v)
    ensures |Marshal(v).value| > 0 && Marshal(v).value[0] == 0x0A
  {
    VersionFieldsWellFormed(v);
    FieldsRoundTrip(VersionFields(v));
    VersionMerges(v);
    var f := Len(1, EncodeFields(KeyFields(v.key.value)));
    assert VersionFields(v)[0] == f;
    assert EncodeField(f)[0] == EncodeVarint(10)[0];
  }
}
