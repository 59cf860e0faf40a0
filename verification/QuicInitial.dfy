/**
  Unprotection of QUIC client Initial packets (probes/_quic.py), against the protection of
  sections 5.2 to 5.4 of RFC 9001 written as its inverse.  The nonce uses the packet number as it
  is on the wire, as in the source.
  */
module QuicInitial {
  import opened Common
  import opened Bytes
  import opened Tls13
  import opened Quic

  const V1: nat := 0x00000001
  const V2: nat := 0x6B3343CF
  const SAMPLE_LEN: nat := 16
  const MAX_QUIC: nat := 0x10000

  predicate Known(version: nat) {
    version == V1 || version == V2
  }

  /** v1 Initial is long-header type 0; v2 remaps it to 1. */
  function InitialType(version: nat): (t: nat)
    requires Known(version)
    ensures t < 4
  {
    if version == V1 then 0 else 1
  }

  function Salt(version: nat): bytes
    requires Known(version)
  {
    if version == V1 then
      [0x38, 0x76, 0x2c, 0xf7, 0xf5, 0x59, 0x34, 0xb3, 0x4d, 0x17,
       0x9a, 0xe6, 0xa4, 0xc8, 0x0c, 0xad, 0xcc, 0xbb, 0x7f, 0x0a]
    else
      [0x0d, 0xed, 0xe3, 0xde, 0xf7, 0x00, 0xa6, 0xdb, 0x81, 0x93,
       0x81, 0xbe, 0x6e, 0x26, 0x9d, 0xcb, 0xf9, 0xbd, 0x2e, 0xd9]
  }

  function Ascii(s: string): (b: bytes)
    requires forall i :: 0 <= i < |s| ==> s[i] < 128 as char
    ensures |b| == |s|
  {
    seq(|s|, i requires 0 <= i < |s| => s[i] as int)
  }

  datatype Keys = Keys(key: bytes, iv: bytes, hp: bytes)

  /** What a derived value is for: payload key, IV, or header protection. */
  datatype Use = ForPayload | ForNonce | ForHeader

  function Tag(version: nat, use: Use): (s: string)
    requires Known(version)
    ensures |s| <= 10 && forall i :: 0 <= i < |s| ==> s[i] < 128 as char
  {
    match use
    case ForPayload => if version == V1 then "quic key" else "quicv2 key"
    case ForNonce => if version == V1 then "quic iv" else "quicv2 iv"
    case ForHeader => if version == V1 then "quic hp" else "quicv2 hp"
  }

  function Length(use: Use): nat {
    if use.ForNonce? then 12 else 16
  }

  /** The HkdfLabel a value is expanded under. */
  function Info(version: nat, use: Use): bytes
    requires Known(version)
  {
    HkdfLabel(Length(use), Ascii(Tag(version, use)), [])
  }

  function ClientSecret(c: Crypto, dcid: bytes, version: nat): bytes
    requires Lawful(c) && Known(version)
  {
    ExpandLabel(c, c.hmac(Salt(version), dcid), Ascii("client in"), [], 32)
  }

  function Derived(c: Crypto, secret: bytes, version: nat, use: Use): (b: bytes)
    requires Lawful(c) && Known(version)
    ensures |b| == Length(use)
  {
    ExpandLabel(c, secret, Ascii(Tag(version, use)), [], Length(use))
  }

  /** `derive_initial_keys` for a known version. */
  function DeriveKeys(c: Crypto, dcid: bytes, version: nat): (k: Keys)
    requires Lawful(c) && Known(version)
    ensures |k.key| == 16 && |k.iv| == 12 && |k.hp| == 16
  {
    var client := ClientSecret(c, dcid, version);
    Keys(Derived(c, client, version, ForPayload), Derived(c, client, version, ForNonce),
         Derived(c, client, version, ForHeader))
  }

  lemma TagDecides(version: nat, use: Use, version': nat, use': Use)
    requires Known(version) && Known(version') && Ascii(Tag(version, use)) == Ascii(Tag(version', use'))
    ensures version == version' && use == use'
  {
    var a, b := Tag(version, use), Tag(version', use');
    var n := |a| - 1;
    assert |a| == |b| && Ascii(a)[n] == a[n] as int && Ascii(b)[n] == b[n] as int;
  }

  /** The three values, of either version, are expanded under pairwise different HkdfLabel inputs. */
  lemma LabelsAreSeparate(version: nat, use: Use, version': nat, use': Use)
    requires Known(version) && Known(version')
    ensures Info(version, use) == Info(version', use') <==> version == version' && use == use'
  {
    hide HkdfLabel, Tag;
    var a, b := Ascii(Tag(version, use)), Ascii(Tag(version', use'));
    if Info(version, use) == Info(version', use') {
      HkdfLabelInjective(Length(use), a, [], Length(use'), b, []);
      TagDecides(version, use, version', use');
    }
  }

  // ---- Unprotection ----------------------------------------------------------------------

  datatype Header = Header(version: nat, dcid: bytes, length: nat, pnOffset: nat)

  /** The header walk; None for every early return and for the IndexError of a short buffer. */
  function ReadHeader(b: bytes): (r: Option<Header>)
    ensures r.Some? ==> 7 <= |b| && 5 < r.value.pnOffset <= |b| && Known(r.value.version)
  {
    if |b| == 0 || b[0] < 128 || |b| > MAX_QUIC || |b| < 7 then None
    else if !Known(FromBE(b[1..5])) then None
    else if (b[0] / 16) % 4 != InitialType(FromBE(b[1..5])) then None
    else if 6 + b[5] as int >= |b| then None
    else
      var scid: nat := 6 + b[5] as int;
      var token := Varint(b, scid + 1 + b[scid] as int);
      if token.None? then None else
        var length := Varint(b, token.value.1 + token.value.0);
        if length.None? then None
        else Some(Header(FromBE(b[1..5]), Slice(b, 6, scid), length.value.0, length.value.1))
  }

  /** The packet number bytes with their protection removed. */
  function Unmasked(b: bytes, off: nat, n: nat, mask: bytes): (r: bytes)
    requires off + n <= |b| && 1 + n <= |mask|
    ensures |r| == n
  {
    XorAll(b[off..off + n], mask[1..1 + n])
  }

  /** The AEAD step, given the first byte and packet number in the clear. */
  function OpenAt(c: Crypto, k: Keys, b: bytes, h: Header, first: byte, pnBytes: bytes): Option<bytes>
    requires |k.iv| == 12 && 5 < h.pnOffset <= |b|
  {
    var ciphertext := Slice(b, h.pnOffset + |pnBytes|, h.pnOffset + h.length);
    if |ciphertext| < TAG_LEN then None
    else c.open(k.key, XorAll(k.iv, ToBE(FromBE(pnBytes), 12)), ciphertext, [first] + b[1..h.pnOffset] + pnBytes)
  }

  /** Header protection removed and the payload opened.  (The source's check that the packet number lies
      inside the buffer cannot fail once the sample does.) */
  function OpenPayload(c: Crypto, k: Keys, b: bytes, h: Header): Option<bytes>
    requires Lawful(c) && |k.iv| == 12 && 5 < h.pnOffset <= |b|
  {
    var sample := Slice(b, h.pnOffset + 4, h.pnOffset + 4 + SAMPLE_LEN);
    if |sample| < SAMPLE_LEN then None else
      var mask := c.block(k.hp, sample);
      var first := Xor(b[0], mask[0] % 16);
      OpenAt(c, k, b, h, first, Unmasked(b, h.pnOffset, first % 4 + 1, mask))
  }

  /** `extract_client_hello`. */
  function ExtractClientHello(c: Crypto, b: bytes): Option<bytes>
    requires Lawful(c)
  {
    var h := ReadHeader(b);
    if h.None? then None else
      var plaintext := OpenPayload(c, DeriveKeys(c, h.value.dcid, h.value.version), b, h.value);
      if plaintext.None? then None else Reassemble(plaintext.value)
  }

  // ---- Protection (sections 5.2-5.4 of RFC 9001) -------------------------------------------

  datatype Initial = Initial(version: nat, dcid: bytes, scid: bytes, token: bytes, tokenPrefix: nat,
                             pn: nat, pnLen: nat, frames: bytes, lengthPrefix: nat)

  predicate WellFormed(p: Initial) {
    && Known(p.version) && |p.dcid| < 256 && |p.scid| < 256
    && VarintFits(|p.token|, p.tokenPrefix)
    && 1 <= p.pnLen <= 4 && p.pn < Pow256(p.pnLen)
    && VarintFits(p.pnLen + |p.frames| + TAG_LEN, p.lengthPrefix)
    && p.pnLen + |p.frames| >= 4                    // long enough for the sample
  }

  function FirstByte(p: Initial): byte
    requires WellFormed(p)
  {
    0xC0 + InitialType(p.version) * 16 + (p.pnLen - 1)
  }

  function IdPart(p: Initial): bytes
    requires WellFormed(p)
  {
    ToBE(p.version, 4) + [|p.dcid|] + p.dcid + [|p.scid|] + p.scid
  }

  /** The header after its first byte, up to the packet number. */
  function HeaderTail(p: Initial): bytes
    requires WellFormed(p)
  {
    IdPart(p) + EncodeVarint(|p.token|, p.tokenPrefix) + p.token
    + EncodeVarint(p.pnLen + |p.frames| + TAG_LEN, p.lengthPrefix)
  }

  function Sealed(c: Crypto, k: Keys, p: Initial): (s: bytes)
    requires Lawful(c) && |k.iv| == 12 && WellFormed(p)
    ensures |s| == |p.frames| + TAG_LEN
  {
    c.seal(k.key, XorAll(k.iv, ToBE(p.pn, 12)), p.frames, [FirstByte(p)] + HeaderTail(p) + ToBE(p.pn, p.pnLen))
  }

  /** The header-protection mask: the sample starts four bytes after the start of the packet number. */
  function Mask(c: Crypto, k: Keys, p: Initial): (m: bytes)
    requires Lawful(c) && |k.iv| == 12 && WellFormed(p)
    ensures |m| == 16
  {
    c.block(k.hp, Sealed(c, k, p)[4 - p.pnLen..20 - p.pnLen])
  }

  function ProtectWith(c: Crypto, k: Keys, p: Initial): bytes
    requires Lawful(c) && |k.iv| == 12 && WellFormed(p)
  {
    var mask := Mask(c, k, p);
    [Xor(FirstByte(p), mask[0] % 16)] + HeaderTail(p) + XorAll(ToBE(p.pn, p.pnLen), mask[1..1 + p.pnLen])
    + Sealed(c, k, p)
  }

  /** A client Initial packet protected with the keys its destination connection id determines. */
  function Protect(c: Crypto, p: Initial): bytes
    requires Lawful(c) && WellFormed(p)
  {
    ProtectWith(c, DeriveKeys(c, p.dcid, p.version), p)
  }

  // ---- Unprotection inverts protection ------------------------------------------------------

  lemma TailLength(p: Initial)
    requires WellFormed(p)
    ensures |IdPart(p)| == 6 + |p.dcid| + |p.scid|
    ensures |HeaderTail(p)| == |IdPart(p)| + VarintSize(p.tokenPrefix) + |p.token| + VarintSize(p.lengthPrefix)
  {
  }

  /** Where the pieces of the header stand. */
  lemma TailLayout(b: bytes, p: Initial)
    requires WellFormed(p) && At(b, 1, HeaderTail(p))
    ensures At(b, 1, IdPart(p))
    ensures At(b, 1 + |IdPart(p)|, EncodeVarint(|p.token|, p.tokenPrefix))
    ensures At(b, 1 + |IdPart(p)| + VarintSize(p.tokenPrefix) + |p.token|,
               EncodeVarint(p.pnLen + |p.frames| + TAG_LEN, p.lengthPrefix))
  {
    var i, t := IdPart(p), EncodeVarint(|p.token|, p.tokenPrefix);
    var n := EncodeVarint(p.pnLen + |p.frames| + TAG_LEN, p.lengthPrefix);
    AtConcat(b, 1, i + t + p.token, n);
    AtConcat(b, 1, i + t, p.token);
    AtConcat(b, 1, i, t);
  }

  lemma IdLayout(b: bytes, p: Initial)
    requires WellFormed(p) && At(b, 1, IdPart(p))
    ensures At(b, 1, ToBE(p.version, 4)) && At(b, 5, [|p.dcid|]) && At(b, 6, p.dcid)
    ensures At(b, 6 + |p.dcid|, [|p.scid|])
  {
    var v, d, s := ToBE(p.version, 4), [|p.dcid|], [|p.scid|];
    AtConcat(b, 1, v + d + p.dcid + s, p.scid);
    AtConcat(b, 1, v + d + p.dcid, s);
    AtConcat(b, 1, v + d, p.dcid);
    AtConcat(b, 1, v, d);
  }

  lemma VersionRead(b: bytes, p: Initial)
    requires WellFormed(p) && At(b, 1, ToBE(p.version, 4))
    ensures FromBE(b[1..5]) == p.version
  {
    assert Pow256(4) == 0x1_0000_0000;
    FromToBE(p.version, 4);
  }

  lemma IdRead(b: bytes, p: Initial)
    requires WellFormed(p) && At(b, 1, IdPart(p))
    ensures 7 + |p.dcid| + |p.scid| <= |b|
    ensures FromBE(b[1..5]) == p.version && b[5] == |p.dcid| && b[6 + |p.dcid|] == |p.scid|
    ensures Slice(b, 6, 6 + |p.dcid|) == p.dcid
  {
    TailLength(p);
    IdLayout(b, p);
    VersionRead(b, p);
    AtIndex(b, 5, [|p.dcid|], 0);
    AtIndex(b, 6 + |p.dcid|, [|p.scid|], 0);
    AtSlice(b, 6, p.dcid);
  }

  lemma FirstByteBits(p: Initial, m: byte)
    requires WellFormed(p) && m < 16
    ensures Xor(FirstByte(p), m) >= 128 && (Xor(FirstByte(p), m) / 16) % 4 == InitialType(p.version)
  {
    XorLowNibble(FirstByte(p), m);
  }

  /** The header walk from the fields it meets. */
  lemma WalkKnown(b: bytes, version: nat, d: nat, s: nat, token: (nat, nat), length: (nat, nat))
    requires Known(version) && 7 + d + s <= |b| <= MAX_QUIC
    requires b[0] >= 128 && (b[0] / 16) % 4 == InitialType(version)
    requires FromBE(b[1..5]) == version && b[5] == d && b[6 + d] == s
    requires Varint(b, 7 + d + s) == Some(token) && Varint(b, token.1 + token.0) == Some(length)
    ensures ReadHeader(b) == Some(Header(version, Slice(b, 6, 6 + d), length.0, length.1))
  {
  }

  lemma HeaderRead(b: bytes, p: Initial, m: byte)
    requires WellFormed(p) && m < 16 && |b| <= MAX_QUIC
    requires |b| > 0 && b[0] == Xor(FirstByte(p), m) && At(b, 1, HeaderTail(p))
    ensures ReadHeader(b) ==
      Some(Header(p.version, p.dcid, p.pnLen + |p.frames| + TAG_LEN, 1 + |HeaderTail(p)|))
  {
    hide At, XorBits, EncodeVarint, Varint, ReadHeader, HeaderTail;
    FirstByteBits(p, m);
    TailLayout(b, p);
    TailLength(p);
    IdRead(b, p);
    var t, n := 7 + |p.dcid| + |p.scid|, p.pnLen + |p.frames| + TAG_LEN;
    var t', n' := t + VarintSize(p.tokenPrefix), t + VarintSize(p.tokenPrefix) + |p.token|;
    VarintRoundTrip(b, t, |p.token|, p.tokenPrefix);
    VarintRoundTrip(b, n', n, p.lengthPrefix);
    WalkKnown(b, p.version, |p.dcid|, |p.scid|, (|p.token|, t'), (n, n' + VarintSize(p.lengthPrefix)));
  }

  /** Where the protected packet's parts stand when other datagram bytes follow it. */
  lemma PacketLayout(c: Crypto, k: Keys, p: Initial, rest: bytes)
    requires Lawful(c) && |k.iv| == 12 && WellFormed(p)
    ensures At(ProtectWith(c, k, p) + rest, 0, [Xor(FirstByte(p), Mask(c, k, p)[0] % 16)])
    ensures At(ProtectWith(c, k, p) + rest, 1, HeaderTail(p))
    ensures At(ProtectWith(c, k, p) + rest, 1 + |HeaderTail(p)|,
               XorAll(ToBE(p.pn, p.pnLen), Mask(c, k, p)[1..1 + p.pnLen]))
    ensures At(ProtectWith(c, k, p) + rest, 1 + |HeaderTail(p)| + p.pnLen, Sealed(c, k, p))
  {
    var mask := Mask(c, k, p);
    FourParts([Xor(FirstByte(p), mask[0] % 16)], HeaderTail(p), XorAll(ToBE(p.pn, p.pnLen), mask[1..1 + p.pnLen]),
              Sealed(c, k, p), rest);
  }

  lemma FourParts(w: bytes, x: bytes, y: bytes, z: bytes, rest: bytes)
    ensures var b := w + x + y + z + rest;
      At(b, 0, w) && At(b, |w|, x) && At(b, |w| + |x|, y) && At(b, |w| + |x| + |y|, z)
  {
  }

  lemma SampleRead(s: bytes, pnLen: nat, b: bytes, pn: nat)
    requires 1 <= pnLen <= 4 && pnLen + |s| >= 20 && At(b, pn + pnLen, s)
    ensures Slice(b, pn + 4, pn + 4 + SAMPLE_LEN) == s[4 - pnLen..20 - pnLen]
  {
    var sample := Slice(b, pn + 4, pn + 4 + SAMPLE_LEN);
    forall k | 0 <= k < SAMPLE_LEN ensures sample[k] == s[4 - pnLen + k] {
      AtIndex(b, pn + pnLen, s, 4 - pnLen + k);
    }
  }

  lemma FirstByteRecovered(p: Initial, m: byte)
    requires WellFormed(p)
    ensures Xor(Xor(FirstByte(p), m), m) == FirstByte(p) && FirstByte(p) % 4 + 1 == p.pnLen
  {
    XorInvolutive(FirstByte(p), m);
  }

  lemma PacketNumberRead(b: bytes, off: nat, n: bytes, mask: bytes)
    requires 1 + |n| <= |mask| && At(b, off, XorAll(n, mask[1..1 + |n|]))
    ensures Unmasked(b, off, |n|, mask) == n
  {
    XorAllInvolutive(n, mask[1..1 + |n|]);
  }

  lemma AtIs(b: bytes, off: nat, e: bytes)
    requires At(b, off, e)
    ensures b[off..off + |e|] == e
  {
  }

  lemma SealedOpens(c: Crypto, k: Keys, p: Initial, b: bytes)
    requires Lawful(c) && |k.iv| == 12 && WellFormed(p)
    requires At(b, 1, HeaderTail(p)) && At(b, 1 + |HeaderTail(p)| + p.pnLen, Sealed(c, k, p))
    requires 5 < 1 + |HeaderTail(p)| <= |b|
    ensures OpenAt(c, k, b, Header(p.version, p.dcid, p.pnLen + |p.frames| + TAG_LEN, 1 + |HeaderTail(p)|),
                   FirstByte(p), ToBE(p.pn, p.pnLen)) == Some(p.frames)
  {
    hide HeaderTail, ToBE, FromBE, At, XorAll, Slice, InitialType, FirstByte;
    var pn, sealed := 1 + |HeaderTail(p)|, Sealed(c, k, p);
    AtSlice(b, pn + p.pnLen, sealed);
    FromToBE(p.pn, p.pnLen);
    assert b[1..pn] == HeaderTail(p) by { AtIs(b, 1, HeaderTail(p)); }
  }

  lemma PayloadOpened(c: Crypto, k: Keys, p: Initial, b: bytes)
    requires Lawful(c) && |k.iv| == 12 && WellFormed(p)
    requires At(b, 0, [Xor(FirstByte(p), Mask(c, k, p)[0] % 16)])
    requires At(b, 1, HeaderTail(p))
    requires At(b, 1 + |HeaderTail(p)|, XorAll(ToBE(p.pn, p.pnLen), Mask(c, k, p)[1..1 + p.pnLen]))
    requires At(b, 1 + |HeaderTail(p)| + p.pnLen, Sealed(c, k, p))
    requires 5 < 1 + |HeaderTail(p)| <= |b|
    ensures OpenPayload(c, k, b, Header(p.version, p.dcid, p.pnLen + |p.frames| + TAG_LEN, 1 + |HeaderTail(p)|))
         == Some(p.frames)
  {
    hide At, XorBits, XorAll, Sealed, HeaderTail, ToBE, OpenAt;
    var pn, mask := 1 + |HeaderTail(p)|, Mask(c, k, p);
    AtIndex(b, 0, [Xor(FirstByte(p), mask[0] % 16)], 0);
    SampleRead(Sealed(c, k, p), p.pnLen, b, pn);
    FirstByteRecovered(p, mask[0] % 16);
    PacketNumberRead(b, pn, ToBE(p.pn, p.pnLen), mask);
    SealedOpens(c, k, p, b);
  }

  /** For every version, connection ids, token, packet number that fits its field, and payload long enough for the
      sample, a protected Initial of at most 65536 bytes, whatever follows it in the datagram, yields exactly
      the reassembly of its frames. */
  lemma UnprotectionInvertsProtection(c: Crypto, p: Initial, rest: bytes)
    requires Lawful(c) && WellFormed(p) && |Protect(c, p) + rest| <= MAX_QUIC
    ensures ExtractClientHello(c, Protect(c, p) + rest) == Reassemble(p.frames)
  {
    var k := DeriveKeys(c, p.dcid, p.version);
    var b := ProtectWith(c, k, p) + rest;
    PacketLayout(c, k, p, rest);
    AtIndex(b, 0, [Xor(FirstByte(p), Mask(c, k, p)[0] % 16)], 0);
    HeaderRead(b, p, Mask(c, k, p)[0] % 16);
    PayloadOpened(c, k, p, b);
  }
}
