// The ciphertext formats of internal/crypto/ciphertext.go: the current one (sealed bytes, IV, nonce)
// and two legacy envelopes, MessagePack and JSON, which are turned into it.
module Ciphertexts {
  import opened Wrappers
  import opened KeyTypes

  const IV_SIZE: nat := 16
  const NONCE_SIZE: nat := 12
  const RAND_SIZE: nat := 28

  datatype Envelope = Envelope(algorithm: Bytes, id: Bytes, iv: Bytes, nonce: Bytes, bytes: Bytes)

  // What encoding/json finds in a JSON envelope.
  datatype EnvelopeJson = EnvelopeJson(aead: string, id: Bytes, iv: Bytes, nonce: Bytes, bytes: Bytes)

  // kes.KeyAlgorithm.UnmarshalText and json.Unmarshal.
  datatype Parsers = Parsers(knownAlgorithm: Bytes -> bool, readEnvelope: Bytes -> Option<EnvelopeJson>)

  // A JSON text is longer than the byte strings it carries, which it writes in base64.
  ghost predicate LawfulParsers(p: Parsers) {
    forall text :: p.readEnvelope(text).Some? ==>
      var e := p.readEnvelope(text).value; |e.bytes| + |e.iv| + |e.nonce| < |text|
  }

  // ---------- MessagePack ----------

  function Int16(b: Bytes): nat
    requires |b| >= 2
  {
    b[0] as nat * 256 + b[1] as nat
  }

  function Int32(b: Bytes): nat
    requires |b| >= 4
  {
    Int16(b) * 65536 + Int16(b[2..])
  }

  // n bytes and what follows them.
  function Take(b: Bytes, n: nat): Option<(Bytes, Bytes)> {
    if n <= |b| then Some((b[..n], b[n..])) else None
  }

  // A length in 1, 2 or 4 bytes, and what follows it.
  function Length(b: Bytes, width: nat): Option<(nat, Bytes)> {
    if width == 1 && |b| >= 1 then Some((b[0] as nat, b[1..]))
    else if width == 2 && |b| >= 2 then Some((Int16(b), b[2..]))
    else if width == 4 && |b| >= 4 then Some((Int32(b), b[4..]))
    else None
  }

  function Sized(b: Bytes, width: nat): Option<(Bytes, Bytes)> {
    match Length(b, width) case None => None case Some((n, rest)) => Take(rest, n)
  }

  // ReadArrayHeaderBytes
  function ReadArrayHeader(b: Bytes): Option<(nat, Bytes)> {
    if b == [] then None
    else if 0x90 <= b[0] <= 0x9F then Some((b[0] as nat - 0x90, b[1..]))
    else if b[0] == 0xDC then Length(b[1..], 2)
    else if b[0] == 0xDD then Length(b[1..], 4)
    else None
  }

  // ReadStringBytes
  function ReadString(b: Bytes): Option<(Bytes, Bytes)> {
    if b == [] then None
    else if 0xA0 <= b[0] <= 0xBF then Take(b[1..], b[0] as nat - 0xA0)
    else if b[0] == 0xD9 then Sized(b[1..], 1)
    else if b[0] == 0xDA then Sized(b[1..], 2)
    else if b[0] == 0xDB then Sized(b[1..], 4)
    else None
  }

  // ReadBytesZC
  function ReadBin(b: Bytes): Option<(Bytes, Bytes)> {
    if b == [] then None
    else if b[0] == 0xC4 then Sized(b[1..], 1)
    else if b[0] == 0xC5 then Sized(b[1..], 2)
    else if b[0] == 0xC6 then Sized(b[1..], 4)
    else None
  }

  // ReadExactBytes
  function ReadExact(b: Bytes, n: nat): Option<(Bytes, Bytes)> {
    match ReadBin(b) case None => None case Some((bin, rest)) => if |bin| == n then Some((bin, rest)) else None
  }

  // UnmarshalBinary
  function ReadBinary(p: Parsers, b: Bytes): Option<Envelope> {
    match ReadArrayHeader(b)
    case None => None
    case Some((items, b)) =>
      if items != 5 then None
      else
        match ReadString(b)
        case None => None
        case Some((algorithm, b)) =>
          match ReadString(b)
          case None => None
          case Some((id, b)) =>
            match ReadExact(b, IV_SIZE)
            case None => None
            case Some((iv, b)) =>
              match ReadExact(b, NONCE_SIZE)
              case None => None
              case Some((nonce, b)) =>
                match ReadBin(b)
                case None => None
                case Some((bytes, b)) =>
                  if b != [] || !p.knownAlgorithm(algorithm) then None
                  else Some(Envelope(algorithm, id, iv, nonce, bytes))
  }

  // UnmarshalJSON
  function ReadJson(p: Parsers, b: Bytes): Option<EnvelopeJson> {
    match p.readEnvelope(b)
    case None => None
    case Some(v) =>
      if v.aead != "AES-256-GCM-HMAC-SHA-256" && v.aead != "ChaCha20Poly1305" then None
      else if |v.iv| != IV_SIZE || |v.nonce| != NONCE_SIZE then None
      else Some(v)
  }

  // parseCiphertext
  function Normalised(p: Parsers, b: Bytes): Bytes {
    if b == [] then b
    else if b[0] == 0x95 then
      match ReadBinary(p, b) case None => b case Some(c) => c.bytes + c.iv + c.nonce
    else if b[0] == 0x7B then
      match ReadJson(p, b) case None => b case Some(c) => c.bytes + c.iv + c.nonce
    else b
  }

  // A legacy envelope, or a current ciphertext that happens to look like one.
  predicate IsEnvelope(p: Parsers, b: Bytes) {
    b != [] && ((b[0] == 0x95 && ReadBinary(p, b).Some?) || (b[0] == 0x7B && ReadJson(p, b).Some?))
  }

  lemma ReadBinShrinks(b: Bytes)
    requires ReadBin(b).Some?
    ensures |ReadBin(b).value.0| + |ReadBin(b).value.1| < |b|
  {
  }

  lemma ReadStringShrinks(b: Bytes)
    requires ReadString(b).Some?
    ensures |ReadString(b).value.1| < |b|
  {
  }

  lemma ReadExactShrinks(b: Bytes, n: nat)
    requires ReadExact(b, n).Some?
    ensures |ReadExact(b, n).value.0| == n && n + |ReadExact(b, n).value.1| < |b|
  {
    ReadBinShrinks(b);
  }

  lemma HeaderShrinks(b: Bytes)
    requires ReadArrayHeader(b).Some?
    ensures |ReadArrayHeader(b).value.1| < |b|
  {}

  lemma BinaryShrinks(p: Parsers, b: Bytes)
    requires ReadBinary(p, b).Some?
    ensures var c := ReadBinary(p, b).value;
      |c.bytes| + |c.iv| + |c.nonce| < |b| && |c.iv| == IV_SIZE && |c.nonce| == NONCE_SIZE
  {
    HeaderShrinks(b);
    var b1 := ReadArrayHeader(b).value.1;
    var b2 := ReadString(b1).value.1;
    var b3 := ReadString(b2).value.1;
    var b4 := ReadExact(b3, IV_SIZE).value.1;
    var b5 := ReadExact(b4, NONCE_SIZE).value.1;
    ReadStringShrinks(b1);
    ReadStringShrinks(b2);
    ReadExactShrinks(b3, IV_SIZE);
    ReadExactShrinks(b4, NONCE_SIZE);
    ReadBinShrinks(b5);
  }

  // Turning an envelope into the current format makes it shorter, so it fits where it was.
  lemma NormalisedShrinks(p: Parsers, b: Bytes)
    requires LawfulParsers(p)
    ensures if IsEnvelope(p, b) then |Normalised(p, b)| < |b| else Normalised(p, b) == b
  {
    if b != [] && b[0] == 0x95 && ReadBinary(p, b).Some? { BinaryShrinks(p, b); }
  }

  // ---------- wrapping ----------

  // A length in any of the widths that can hold it.
  predicate Fits(n: nat, width: nat) {
    (width == 1 && n < 0x100) || (width == 2 && n < 0x1_0000) || (width == 4 && n < 0x1_0000_0000)
  }

  function BigEndian(n: nat, width: nat): Bytes
    requires Fits(n, width)
  {
    if width == 1 then [n as byte]
    else if width == 2 then [(n / 256) as byte, (n % 256) as byte]
    else [(n / 16777216) as byte, (n / 65536 % 256) as byte, (n / 256 % 256) as byte, (n % 256) as byte]
  }

  predicate StrFits(s: Bytes, width: nat) { if width == 0 then |s| < 32 else Fits(|s|, width) }

  function StringLead(width: nat): byte { if width == 1 then 0xD9 else if width == 2 then 0xDA else 0xDB }

  // Width 0 is the one-byte form of short strings.
  function WrapString(s: Bytes, width: nat): Bytes
    requires StrFits(s, width)
  {
    if width == 0 then [(0xA0 + |s|) as byte] + s
    else [StringLead(width)] + (BigEndian(|s|, width) + s)
  }

  function WrapBin(s: Bytes, width: nat): Bytes
    requires Fits(|s|, width)
  {
    [if width == 1 then 0xC4 else if width == 2 then 0xC5 else 0xC6] + (BigEndian(|s|, width) + s)
  }

  datatype Widths = Widths(algorithm: nat, id: nat, iv: nat, nonce: nat, bytes: nat)

  predicate EnvelopeFits(c: Envelope, w: Widths) {
    && StrFits(c.algorithm, w.algorithm) && StrFits(c.id, w.id)
    && Fits(|c.iv|, w.iv) && Fits(|c.nonce|, w.nonce) && Fits(|c.bytes|, w.bytes)
  }

  // The MessagePack envelope, with each length in any encoding that MessagePack allows.
  function WrapBinary(c: Envelope, w: Widths): Bytes
    requires EnvelopeFits(c, w)
  {
    [0x95] + (WrapString(c.algorithm, w.algorithm) + (WrapString(c.id, w.id) +
    (WrapBin(c.iv, w.iv) + (WrapBin(c.nonce, w.nonce) + WrapBin(c.bytes, w.bytes)))))
  }

  // The envelope up to the bytes of its last field.
  function WrapHead(c: Envelope, w: Widths): Bytes
    requires EnvelopeFits(c, w)
  {
    [0x95] + WrapString(c.algorithm, w.algorithm) + WrapString(c.id, w.id) + WrapBin(c.iv, w.iv) +
    WrapBin(c.nonce, w.nonce) + BinHead(|c.bytes|, w.bytes)
  }

  function BinHead(n: nat, width: nat): Bytes
    requires Fits(n, width)
  {
    [if width == 1 then 0xC4 else if width == 2 then 0xC5 else 0xC6] + BigEndian(n, width)
  }

  lemma HeadThenBytes(c: Envelope, w: Widths)
    requires EnvelopeFits(c, w)
    ensures WrapBinary(c, w) == WrapHead(c, w) + c.bytes && WrapHead(c, w)[0] == 0x95
  {
    assert WrapBin(c.bytes, w.bytes) == BinHead(|c.bytes|, w.bytes) + c.bytes;
  }

  lemma FourBytes(n: nat)
    requires n < 0x1_0000_0000
    ensures n == ((n / 16777216) * 256 + n / 65536 % 256) * 65536 + (n / 256 % 256) * 256 + n % 256
  {
    assert n / 65536 == (n / 16777216) * 256 + n / 65536 % 256;
    assert n / 256 == (n / 65536) * 256 + n / 256 % 256;
  }

  lemma LengthRoundTrip(n: nat, width: nat, tail: Bytes)
    requires Fits(n, width)
    ensures Length(BigEndian(n, width) + tail, width) == Some((n, tail))
  {
    var b := BigEndian(n, width) + tail;
    assert b[width..] == tail;
    if width == 4 {
      FourBytes(n);
      assert b[2..][0] == b[2] && b[2..][1] == b[3];
      assert Int32(b) == n;
    }
  }

  lemma TakeRoundTrip(s: Bytes, tail: Bytes)
    ensures Take(s + tail, |s|) == Some((s, tail))
  {
    assert (s + tail)[..|s|] == s && (s + tail)[|s|..] == tail;
  }

  lemma SizedRoundTrip(s: Bytes, width: nat, tail: Bytes)
    requires Fits(|s|, width)
    ensures Sized(BigEndian(|s|, width) + s + tail, width) == Some((s, tail))
  {
    assert BigEndian(|s|, width) + s + tail == BigEndian(|s|, width) + (s + tail);
    LengthRoundTrip(|s|, width, s + tail);
    TakeRoundTrip(s, tail);
  }

  lemma ShortStringRoundTrip(s: Bytes, tail: Bytes)
    requires |s| < 32
    ensures ReadString(WrapString(s, 0) + tail) == Some((s, tail))
  {
    var b := WrapString(s, 0) + tail;
    assert b[1..] == s + tail;
    TakeRoundTrip(s, tail);
  }

  lemma LongStringHeader(rest: Bytes, width: nat)
    requires width == 1 || width == 2 || width == 4
    ensures ReadString([StringLead(width)] + rest) == Sized(rest, width)
  {
    assert ([StringLead(width)] + rest)[1..] == rest;
  }

  lemma LongStringRoundTrip(s: Bytes, width: nat, tail: Bytes)
    requires Fits(|s|, width)
    ensures ReadString(WrapString(s, width) + tail) == Some((s, tail))
  {
    var rest := BigEndian(|s|, width) + s + tail;
    calc {
      ReadString(WrapString(s, width) + tail);
      { assert WrapString(s, width) + tail == [StringLead(width)] + rest; }
      ReadString([StringLead(width)] + rest);
      { LongStringHeader(rest, width); }
      Sized(rest, width);
      { SizedRoundTrip(s, width, tail); }
      Some((s, tail));
    }
  }

  lemma StringRoundTrip(s: Bytes, width: nat, tail: Bytes)
    requires StrFits(s, width)
    ensures ReadString(WrapString(s, width) + tail) == Some((s, tail))
  {
    if width == 0 { ShortStringRoundTrip(s, tail); } else { LongStringRoundTrip(s, width, tail); }
  }

  lemma BinRoundTrip(s: Bytes, width: nat, tail: Bytes)
    requires Fits(|s|, width)
    ensures ReadBin(WrapBin(s, width) + tail) == Some((s, tail))
  {
    var b := WrapBin(s, width) + tail;
    assert b[1..] == BigEndian(|s|, width) + s + tail;
    SizedRoundTrip(s, width, tail);
  }

  lemma ReadUndoesWrap(p: Parsers, c: Envelope, w: Widths)
    requires EnvelopeFits(c, w) && |c.iv| == IV_SIZE && |c.nonce| == NONCE_SIZE && p.knownAlgorithm(c.algorithm)
    ensures ReadBinary(p, WrapBinary(c, w)) == Some(c)
  {
    var t5 := WrapBin(c.bytes, w.bytes);
    var t4 := WrapBin(c.nonce, w.nonce) + t5;
    var t3 := WrapBin(c.iv, w.iv) + t4;
    var t2 := WrapString(c.id, w.id) + t3;
    var t1 := WrapString(c.algorithm, w.algorithm) + t2;
    assert WrapBinary(c, w)[1..] == t1;
    StringRoundTrip(c.algorithm, w.algorithm, t2);
    StringRoundTrip(c.id, w.id, t3);
    BinRoundTrip(c.iv, w.iv, t4);
    BinRoundTrip(c.nonce, w.nonce, t5);
    assert t5 + [] == t5;
    BinRoundTrip(c.bytes, w.bytes, []);
  }

  // The head makes an envelope of any bytes that follow it, if there are as many as it says.
  lemma HeadMakesEnvelope(p: Parsers, c: Envelope, w: Widths, bytes: Bytes)
    requires EnvelopeFits(c, w) && |c.iv| == IV_SIZE && |c.nonce| == NONCE_SIZE && p.knownAlgorithm(c.algorithm)
    requires |bytes| == |c.bytes|
    ensures WrapHead(c, w)[0] == 0x95 && IsEnvelope(p, WrapHead(c, w) + bytes)
  {
    var d := c.(bytes := bytes);
    HeadThenBytes(d, w);
    ReadUndoesWrap(p, d, w);
  }

  // Both envelopes of a raw ciphertext turn into that ciphertext.
  lemma WrappedNormalises(p: Parsers, c: Envelope, w: Widths)
    requires EnvelopeFits(c, w) && |c.iv| == IV_SIZE && |c.nonce| == NONCE_SIZE && p.knownAlgorithm(c.algorithm)
    ensures Normalised(p, WrapBinary(c, w)) == c.bytes + c.iv + c.nonce
  {
    ReadUndoesWrap(p, c, w);
  }

  lemma JsonNormalises(p: Parsers, text: Bytes, c: EnvelopeJson)
    requires text != [] && text[0] == 0x7B && p.readEnvelope(text) == Some(c)
    requires |c.iv| == IV_SIZE && |c.nonce| == NONCE_SIZE
    requires c.aead == "AES-256-GCM-HMAC-SHA-256" || c.aead == "ChaCha20Poly1305"
    ensures Normalised(p, text) == c.bytes + c.iv + c.nonce
  {
  }

  // ---------- in place ----------

  predicate IsSuffix(b: Bytes, rest: Bytes) { |rest| <= |b| && rest == b[|b| - |rest|..] }

  lemma SuffixOfSuffix(b: Bytes, mid: Bytes, rest: Bytes)
    requires IsSuffix(b, mid) && IsSuffix(mid, rest)
    ensures IsSuffix(b, rest)
  {}

  lemma SizedSuffix(b: Bytes, width: nat)
    requires Sized(b, width).Some?
    ensures var (taken, rest) := Sized(b, width).value; IsSuffix(b, rest) && IsSuffix(b, taken + rest)
  {}

  lemma BinSuffix(b: Bytes)
    requires ReadBin(b).Some?
    ensures var (taken, rest) := ReadBin(b).value; IsSuffix(b, rest) && IsSuffix(b, taken + rest)
  {
    SizedSuffix(b[1..], if b[0] == 0xC4 then 1 else if b[0] == 0xC5 then 2 else 4);
  }

  lemma StringSuffix(b: Bytes)
    requires ReadString(b).Some?
    ensures IsSuffix(b, ReadString(b).value.1)
  {
    if b[0] > 0xBF { SizedSuffix(b[1..], if b[0] == 0xD9 then 1 else if b[0] == 0xDA then 2 else 4); }
  }

  lemma HeaderSuffix(b: Bytes)
    requires ReadArrayHeader(b).Some?
    ensures IsSuffix(b, ReadArrayHeader(b).value.1)
  {}

  // The sealed bytes of an envelope are the end of its text, of which msgp.ReadBytesZC yields a slice.
  lemma BinaryEndsInBytes(p: Parsers, b: Bytes)
    requires ReadBinary(p, b).Some?
    ensures IsSuffix(b, ReadBinary(p, b).value.bytes)
  {
    var b1 := ReadArrayHeader(b).value.1;
    var b2 := ReadString(b1).value.1;
    var b3 := ReadString(b2).value.1;
    var b4 := ReadBin(b3).value.1;
    var b5 := ReadBin(b4).value.1;
    HeaderSuffix(b);
    StringSuffix(b1);
    SuffixOfSuffix(b, b1, b2);
    StringSuffix(b2);
    SuffixOfSuffix(b, b2, b3);
    BinSuffix(b3);
    SuffixOfSuffix(b, b3, b4);
    BinSuffix(b4);
    SuffixOfSuffix(b, b4, b5);
    BinSuffix(b5);
    var bytes := ReadBin(b5).value.0;
    assert bytes + [] == bytes;
    SuffixOfSuffix(b, b5, bytes);
  }

  // A copy of a slice of the buffer: slices.Clone.
  method Clone(b: array<byte>, at: nat, n: nat) returns (c: array<byte>)
    requires at + n <= b.Length
    ensures fresh(c) && c[..] == b[at..at + n]
  {
    c := new byte[n];
    var i := 0;
    while i < n
      invariant i <= n && c[..i] == b[at..at + i]
    {
      c[i] := b[at + i];
      i := i + 1;
    }
  }

  // Bytes that a decoder has put into memory of their own.
  method Decoded(s: Bytes) returns (c: array<byte>)
    ensures fresh(c) && c[..] == s
  {
    c := new byte[|s|](i requires 0 <= i < |s| => s[i]);
  }

  // append(b[:n], src...): in the array of b when it has room, in a new one otherwise.
  method Append(b: array<byte>, n: nat, src: array<byte>) returns (c: array<byte>)
    requires n <= b.Length && src != b
    modifies b
    ensures n + src.Length <= c.Length && c[..n + src.Length] == old(b[..n]) + src[..]
    ensures if n + src.Length <= b.Length then c == b else fresh(c) && b[..] == old(b[..])
  {
    c := b;
    if n + src.Length > b.Length {
      c := new byte[n + src.Length];
      var j := 0;
      while j < n
        invariant j <= n && c[..j] == b[..j] && b[..] == old(b[..]) && src[..] == old(src[..])
      {
        c[j] := b[j];
        j := j + 1;
      }
    }
    var i := 0;
    while i < src.Length
      invariant i <= src.Length && c[..n + i] == old(b[..n]) + src[..i]
      invariant c != b ==> b[..] == old(b[..])
      invariant src[..] == old(src[..])
    {
      c[n + i] := src[i];
      i := i + 1;
    }
  }

  // The same for bytes that a cipher yields.
  method AppendBytes(b: array<byte>, n: nat, src: Bytes) returns (c: array<byte>)
    requires n <= b.Length
    modifies b
    ensures n + |src| <= c.Length && c[..n + |src|] == old(b[..n]) + src
    ensures if n + |src| <= b.Length then c == b else fresh(c) && b[..] == old(b[..])
  {
    var a := Decoded(src);
    c := Append(b, n, a);
  }

  // Truncates the buffer and appends the three parts to it. They are in memory of their own, so that
  // writing one overwrites nothing that is still to be read.
  method Rewrite(b: array<byte>, bytes: array<byte>, iv: array<byte>, nonce: array<byte>)
    returns (out: array<byte>, m: nat)
    requires bytes != b && iv != b && nonce != b
    modifies b
    ensures m <= out.Length && out[..m] == old(bytes[..] + iv[..] + nonce[..])
    ensures bytes.Length + iv.Length + nonce.Length <= b.Length ==> out == b
    ensures out == b || fresh(out)
  {
    out := Append(b, 0, bytes);
    var o1 := Append(out, bytes.Length, iv);
    var o2 := Append(o1, bytes.Length + iv.Length, nonce);
    out, m := o2, bytes.Length + iv.Length + nonce.Length;
  }

  // The MessagePack branch: UnmarshalBinary clones the slice of the buffer that holds the bytes, and
  // has read the IV and the nonce into arrays.
  method RewriteBinary(b: array<byte>, n: nat, c: Envelope) returns (out: array<byte>, m: nat)
    requires n <= b.Length && IsSuffix(b[..n], c.bytes) && |c.bytes| + |c.iv| + |c.nonce| <= n
    modifies b
    ensures m <= out.Length && out[..m] == c.bytes + c.iv + c.nonce && out == b
  {
    var iv := Decoded(c.iv);
    var nonce := Decoded(c.nonce);
    var bytes := Clone(b, n - |c.bytes|, |c.bytes|);
    assert b[n - |c.bytes|..n] == b[..n][n - |c.bytes|..];
    out, m := Rewrite(b, bytes, iv, nonce);
  }

  // parseCiphertext on the first n bytes of a buffer.
  method ParseCiphertext(p: Parsers, b: array<byte>, n: nat) returns (out: array<byte>, m: nat)
    requires n <= b.Length
    modifies b
    ensures m <= out.Length && out[..m] == Normalised(p, old(b[..n]))
    ensures LawfulParsers(p) ==> out == b
    ensures !IsEnvelope(p, old(b[..n])) ==> b[..] == old(b[..])
    ensures out == b || fresh(out)
  {
    out, m := b, n;
    if n == 0 {
      return;
    }
    if b[0] == 0x95 {
      match ReadBinary(p, b[..n])
      case None => return;
      case Some(c) =>
        BinaryShrinks(p, b[..n]);
        BinaryEndsInBytes(p, b[..n]);
        out, m := RewriteBinary(b, n, c);
    } else if b[0] == 0x7B {
      match ReadJson(p, b[..n])
      case None => return;
      case Some(c) =>
        var bytes := Decoded(c.bytes);
        var iv := Decoded(c.iv);
        var nonce := Decoded(c.nonce);
        out, m := Rewrite(b, bytes, iv, nonce);
    }
  }
}
