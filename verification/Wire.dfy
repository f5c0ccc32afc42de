// The protobuf wire format: varints, tags and fields.
module Wire {
  import opened Wrappers
  import opened KeyTypes

  const UINT64: nat := 0x1_0000_0000_0000_0000
  const UINT32: nat := 0x1_0000_0000
  const MAX_NUMBER: nat := 0x1FFF_FFFF

  // ---------- varints ----------

  function EncodeVarint(v: nat): (b: Bytes)
    ensures |b| >= 1
  {
    if v < 128 then [v as byte] else [(v % 128 + 128) as byte] + EncodeVarint(v / 128)
  }

  // What fits into a varint from its k-th byte on: seven bits less for each byte before it, and the
  // tenth byte may only be 0 or 1.
  function Limit(k: nat): nat
    requires k <= 9
  {
    match k
    case 0 => UINT64
    case 1 => 0x200_0000_0000_0000
    case 2 => 0x4_0000_0000_0000
    case 3 => 0x800_0000_0000
    case 4 => 0x10_0000_0000
    case 5 => 0x2000_0000
    case 6 => 0x40_0000
    case 7 => 0x8000
    case 8 => 0x100
    case _ => 2
  }

  // Reads a varint from its k-th byte on; the value and what follows.
  function VarintAt(b: Bytes, k: nat): (r: Option<(nat, Bytes)>)
    requires k <= 9
    ensures r.Some? ==> |r.value.1| < |b| && r.value.0 < Limit(k)
    decreases 9 - k
  {
    if b == [] then None
    else if k == 9 then
      if b[0] < 2 then Some((b[0] as nat, b[1..])) else None
    else if b[0] < 128 then
      Some((b[0] as nat, b[1..]))
    else
      match VarintAt(b[1..], k + 1)
      case None => None
      case Some((v, rest)) => Some((b[0] as nat - 128 + 128 * v, rest))
  }

  lemma {:induction false} VarintRoundTrip(v: nat, k: nat, tail: Bytes)
    requires k <= 9 && v < Limit(k)
    ensures VarintAt(EncodeVarint(v) + tail, k) == Some((v, tail))
    decreases 9 - k
  {
    var b := EncodeVarint(v) + tail;
    if v < 128 {
      assert b[1..] == tail;
    } else {
      VarintRoundTrip(v / 128, k + 1, tail);
      assert b[1..] == EncodeVarint(v / 128) + tail;
    }
  }

  function DecodeVarint(b: Bytes): (r: Option<(nat, Bytes)>)
    ensures r.Some? ==> |r.value.1| < |b| && r.value.0 < UINT64
  {
    VarintAt(b, 0)
  }

  lemma DecodeUndoesEncodeVarint(v: nat, tail: Bytes)
    requires v < UINT64
    ensures DecodeVarint(EncodeVarint(v) + tail) == Some((v, tail))
  {
    VarintRoundTrip(v, 0, tail);
  }

  // ---------- fields ----------

  datatype Field =
    | Varint(num: nat, v: nat)
    | Fixed64(num: nat, data: Bytes)
    | Len(num: nat, data: Bytes)
    | Fixed32(num: nat, data: Bytes)

  predicate WellFormed(f: Field) {
    && 1 <= f.num <= MAX_NUMBER
    && match f
       case Varint(_, v) => v < UINT64
       case Fixed64(_, data) => |data| == 8
       case Len(_, data) => |data| < UINT64
       case Fixed32(_, data) => |data| == 4
  }

  function WireType(f: Field): nat {
    match f
    case Varint(_, _) => 0
    case Fixed64(_, _) => 1
    case Len(_, _) => 2
    case Fixed32(_, _) => 5
  }

  function EncodeField(f: Field): (b: Bytes)
    ensures |b| >= 1
  {
    EncodeVarint(f.num * 8 + WireType(f)) + EncodeValue(f)
  }

  function EncodeValue(f: Field): Bytes {
    match f
    case Varint(_, v) => EncodeVarint(v)
    case Fixed64(_, data) => data
    case Len(_, data) => EncodeVarint(|data|) + data
    case Fixed32(_, data) => data
  }

  // The value of a field whose tag has been read. Groups are not read.
  function DecodeValue(num: nat, wireType: nat, b: Bytes): (r: Option<(Field, Bytes)>)
    ensures r.Some? ==> |r.value.1| <= |b|
  {
    match wireType
    case 0 => (match DecodeVarint(b) case None => None case Some((v, rest)) => Some((Varint(num, v), rest)))
    case 1 => if |b| < 8 then None else Some((Fixed64(num, b[..8]), b[8..]))
    case 2 =>
      (match DecodeVarint(b)
       case None => None
       case Some((n, rest)) => if n > |rest| then None else Some((Len(num, rest[..n]), rest[n..])))
    case 5 => if |b| < 4 then None else Some((Fixed32(num, b[..4]), b[4..]))
    case _ => None
  }

  function DecodeField(b: Bytes): (r: Option<(Field, Bytes)>)
    ensures r.Some? ==> |r.value.1| < |b|
  {
    match DecodeVarint(b)
    case None => None
    case Some((tag, rest)) =>
      if 1 <= tag / 8 <= MAX_NUMBER then DecodeValue(tag / 8, tag % 8, rest) else None
  }

  function EncodeFields(fs: seq<Field>): Bytes {
    if fs == [] then [] else EncodeField(fs[0]) + EncodeFields(fs[1..])
  }

  function DecodeFields(b: Bytes): Option<seq<Field>>
    decreases |b|
  {
    if b == [] then Some([])
    else
      match DecodeField(b)
      case None => None
      case Some((f, rest)) =>
        match DecodeFields(rest)
        case None => None
        case Some(fs) => Some([f] + fs)
  }

  lemma ValueRoundTrip(f: Field, tail: Bytes)
    requires WellFormed(f) && !f.Len?
    ensures DecodeValue(f.num, WireType(f), EncodeValue(f) + tail) == Some((f, tail))
  {
    match f
    case Varint(_, v) => DecodeUndoesEncodeVarint(v, tail);
    case Fixed64(_, data) =>
      assert (data + tail)[..8] == data && (data + tail)[8..] == tail;
    case Fixed32(_, data) =>
      assert (data + tail)[..4] == data && (data + tail)[4..] == tail;
  }

  lemma LenRoundTrip(num: nat, data: Bytes, tail: Bytes)
    requires |data| < UINT64
    ensures DecodeValue(num, 2, EncodeValue(Len(num, data)) + tail) == Some((Len(num, data), tail))
  {
    var rest := data + tail;
    assert EncodeValue(Len(num, data)) + tail == EncodeVarint(|data|) + rest;
    DecodeUndoesEncodeVarint(|data|, rest);
    assert rest[..|data|] == data && rest[|data|..] == tail;
  }

  lemma FieldRoundTrip(f: Field, tail: Bytes)
    requires WellFormed(f)
    ensures DecodeField(EncodeField(f) + tail) == Some((f, tail))
  {
    var tag := f.num * 8 + WireType(f);
    var value := EncodeValue(f) + tail;
    assert EncodeField(f) + tail == EncodeVarint(tag) + value;
    DecodeUndoesEncodeVarint(tag, value);
    assert tag / 8 == f.num && tag % 8 == WireType(f);
    if f.Len? { LenRoundTrip(f.num, f.data, tail); } else { ValueRoundTrip(f, tail); }
  }

  // Every sequence of fields survives the wire.
  lemma {:induction false} FieldsRoundTrip(fs: seq<Field>)
    requires forall f :: f in fs ==> WellFormed(f)
    ensures DecodeFields(EncodeFields(fs)) == Some(fs)
  {
    if fs != [] {
      FieldRoundTrip(fs[0], EncodeFields(fs[1..]));
      FieldsRoundTrip(fs[1..]);
      assert [fs[0]] + fs[1..] == fs;
    }
  }
}
