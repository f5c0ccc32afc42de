// The standard base64 encoding with padding (section 4 of RFC 4648) as encoding/base64 reads and
// writes it: the decoder skips CR and LF and does not insist on zero trailing bits.
module Base64 {
  import opened Wrappers
  import opened KeyTypes

  const PAD: byte := 0x3D

  type Sextet = x: int | 0 <= x < 64

  function Char(s: Sextet): byte {
    if s < 26 then (0x41 + s) as byte
    else if s < 52 then (0x61 + s - 26) as byte
    else if s < 62 then (0x30 + s - 52) as byte
    else if s == 62 then 0x2B else 0x2F
  }

  function Value(c: byte): Option<Sextet> {
    if 0x41 <= c <= 0x5A then Some(c as int - 0x41)
    else if 0x61 <= c <= 0x7A then Some(c as int - 0x61 + 26)
    else if 0x30 <= c <= 0x39 then Some(c as int - 0x30 + 52)
    else if c == 0x2B then Some(62)
    else if c == 0x2F then Some(63)
    else None
  }

  // The sextets of three bytes, and back.
  function S0(a: byte): Sextet { a as int / 4 }
  function S1(a: byte, b: byte): Sextet { (a as int % 4) * 16 + b as int / 16 }
  function S2(b: byte, c: byte): Sextet { (b as int % 16) * 4 + c as int / 64 }
  function S3(c: byte): Sextet { c as int % 64 }

  function B0(s0: Sextet, s1: Sextet): byte { (s0 * 4 + s1 / 16) as byte }
  function B1(s1: Sextet, s2: Sextet): byte { ((s1 % 16) * 16 + s2 / 4) as byte }
  function B2(s2: Sextet, s3: Sextet): byte { ((s2 % 4) * 64 + s3) as byte }

  // A group of 24 bits, and a last one of 8 or 16.
  function Group(a: byte, b: byte, c: byte): Bytes {
    [Char(S0(a)), Char(S1(a, b)), Char(S2(b, c)), Char(S3(c))]
  }

  function LastGroup(rest: Bytes): Bytes
    requires 1 <= |rest| <= 2
  {
    if |rest| == 1 then [Char(S0(rest[0])), Char(S1(rest[0], 0)), PAD, PAD]
    else [Char(S0(rest[0])), Char(S1(rest[0], rest[1])), Char(S2(rest[1], 0)), PAD]
  }

  function Encode(src: Bytes): Bytes {
    if |src| == 0 then []
    else if |src| <= 2 then LastGroup(src)
    else Group(src[0], src[1], src[2]) + Encode(src[3..])
  }

  predicate NewLine(c: byte) { c == 0x0A || c == 0x0D }

  function Strip(text: Bytes): Bytes {
    if text == [] then []
    else if NewLine(text[0]) then Strip(text[1..]) else [text[0]] + Strip(text[1..])
  }

  // The bytes of one quantum of four characters; only the last one may be padded.
  function Quad(q: Bytes, last: bool): Option<Bytes>
    requires |q| == 4
  {
    var s0, s1, s2, s3 := Value(q[0]), Value(q[1]), Value(q[2]), Value(q[3]);
    if s0.None? || s1.None? then None
    else if q[2] == PAD then
      if q[3] == PAD && last then Some([B0(s0.value, s1.value)]) else None
    else if s2.None? then None
    else if q[3] == PAD then
      if last then Some([B0(s0.value, s1.value), B1(s1.value, s2.value)]) else None
    else if s3.None? then None
    else Some([B0(s0.value, s1.value), B1(s1.value, s2.value), B2(s2.value, s3.value)])
  }

  function Quads(text: Bytes): Option<Bytes> {
    if text == [] then Some([])
    else if |text| < 4 then None
    else
      match Quad(text[..4], |text| == 4)
      case None => None
      case Some(bytes) =>
        match Quads(text[4..])
        case None => None
        case Some(rest) => Some(bytes + rest)
  }

  function Decode(text: Bytes): Option<Bytes> { Quads(Strip(text)) }

  lemma CharValue(s: Sextet)
    ensures Value(Char(s)) == Some(s) && !NewLine(Char(s)) && Char(s) != PAD
  {
  }

  lemma Regroup(a: byte, b: byte, c: byte)
    ensures B0(S0(a), S1(a, b)) == a && B1(S1(a, b), S2(b, c)) == b && B2(S2(b, c), S3(c)) == c
  {
  }

  lemma GroupRoundTrip(a: byte, b: byte, c: byte, last: bool)
    ensures Quad(Group(a, b, c), last) == Some([a, b, c])
    ensures forall x :: x in Group(a, b, c) ==> !NewLine(x)
  {
    CharValue(S0(a));
    CharValue(S1(a, b));
    CharValue(S2(b, c));
    CharValue(S3(c));
    Regroup(a, b, c);
  }

  lemma OneByteQuad(a: byte)
    ensures Quad(LastGroup([a]), true) == Some([B0(S0(a), S1(a, 0))])
    ensures forall x :: x in LastGroup([a]) ==> !NewLine(x)
  {
    CharValue(S0(a));
    CharValue(S1(a, 0));
  }

  lemma OneByteRoundTrip(a: byte)
    ensures Quad(LastGroup([a]), true) == Some([a])
    ensures forall x :: x in LastGroup([a]) ==> !NewLine(x)
  {
    OneByteQuad(a);
    assert B0(S0(a), S1(a, 0)) == a by { Regroup(a, 0, 0); }
  }

  lemma TwoBytesRoundTrip(a: byte, b: byte)
    ensures Quad(LastGroup([a, b]), true) == Some([a, b])
    ensures forall x :: x in LastGroup([a, b]) ==> !NewLine(x)
  {
    CharValue(S0(a));
    CharValue(S1(a, b));
    CharValue(S2(b, 0));
    Regroup(a, b, 0);
  }

  lemma LastGroupRoundTrip(rest: Bytes)
    requires 1 <= |rest| <= 2
    ensures Quad(LastGroup(rest), true) == Some(rest)
    ensures forall x :: x in LastGroup(rest) ==> !NewLine(x)
  {
    if |rest| == 1 {
      assert rest == [rest[0]];
      OneByteRoundTrip(rest[0]);
    } else {
      assert rest == [rest[0], rest[1]];
      TwoBytesRoundTrip(rest[0], rest[1]);
    }
  }

  lemma {:induction false} StripKeeps(text: Bytes)
    requires forall x :: x in text ==> !NewLine(x)
    ensures Strip(text) == text
  {
    if text != [] {
      StripKeeps(text[1..]);
      assert text == [text[0]] + text[1..];
    }
  }

  lemma {:induction false} EncodeHasNoNewLine(src: Bytes)
    ensures forall x :: x in Encode(src) ==> !NewLine(x)
  {
    if |src| == 0 {
    } else if |src| <= 2 {
      LastGroupRoundTrip(src);
    } else {
      GroupRoundTrip(src[0], src[1], src[2], false);
      EncodeHasNoNewLine(src[3..]);
    }
  }

  lemma {:induction false} QuadsUndoEncode(src: Bytes)
    ensures Quads(Encode(src)) == Some(src)
  {
    if |src| == 0 {
    } else if |src| <= 2 {
      LastGroupRoundTrip(src);
      assert LastGroup(src)[..4] == LastGroup(src) && LastGroup(src)[4..] == [];
      assert src + [] == src;
    } else {
      var q, rest := Group(src[0], src[1], src[2]), Encode(src[3..]);
      assert (q + rest)[..4] == q && (q + rest)[4..] == rest;
      GroupRoundTrip(src[0], src[1], src[2], rest == []);
      QuadsUndoEncode(src[3..]);
      assert [src[0], src[1], src[2]] + src[3..] == src;
    }
  }

  lemma DecodeUndoesEncode(src: Bytes)
    ensures Decode(Encode(src)) == Some(src)
  {
    EncodeHasNoNewLine(src);
    StripKeeps(Encode(src));
    QuadsUndoEncode(src);
  }

  lemma EncodeFirst(src: Bytes)
    requires |src| > 2
    ensures |Encode(src)| == 4 + |Encode(src[3..])|
  {
    assert Encode(src) == Group(src[0], src[1], src[2]) + Encode(src[3..]);
  }

  // EncodedLen
  lemma {:induction false} EncodedLength(src: Bytes)
    ensures |Encode(src)| == 4 * ((|src| + 2) / 3)
  {
    if |src| > 2 {
      EncodeFirst(src);
      EncodedLength(src[3..]);
      assert (|src| + 2) / 3 == 1 + (|src[3..]| + 2) / 3;
    } else if src != [] {
      assert |LastGroup(src)| == 4;
    }
  }
}
