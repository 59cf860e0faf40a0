/**
  What `QuicInitial` derives and accepts, in the bytes that stand in RFC 9001 and RFC 9369: salts, labels and the first
  byte of an Initial are written out here and proved to be the ones the model computes.
  */
module QuicWire {
  import opened Common
  import opened Bytes
  import opened Tls13
  import opened Quic
  import opened QuicInitial

  // The HkdfLabel encodings (section 5.1 and appendix A.1 of RFC 9001; section 3.3.2 of RFC 9369).
  const CLIENT_IN: bytes :=
    [0x00, 0x20, 0x0f, 0x74, 0x6c, 0x73, 0x31, 0x33, 0x20, 0x63, 0x6c, 0x69, 0x65, 0x6e, 0x74, 0x20, 0x69,
     0x6e, 0x00]
  const V1_KEY: bytes :=
    [0x00, 0x10, 0x0e, 0x74, 0x6c, 0x73, 0x31, 0x33, 0x20, 0x71, 0x75, 0x69, 0x63, 0x20, 0x6b, 0x65, 0x79,
     0x00]
  const V1_IV: bytes :=
    [0x00, 0x0c, 0x0d, 0x74, 0x6c, 0x73, 0x31, 0x33, 0x20, 0x71, 0x75, 0x69, 0x63, 0x20, 0x69, 0x76, 0x00]
  const V1_HP: bytes :=
    [0x00, 0x10, 0x0d, 0x74, 0x6c, 0x73, 0x31, 0x33, 0x20, 0x71, 0x75, 0x69, 0x63, 0x20, 0x68, 0x70, 0x00]
  const V2_KEY: bytes :=
    [0x00, 0x10, 0x10, 0x74, 0x6c, 0x73, 0x31, 0x33, 0x20, 0x71, 0x75, 0x69, 0x63, 0x76, 0x32, 0x20, 0x6b,
     0x65, 0x79, 0x00]
  const V2_IV: bytes :=
    [0x00, 0x0c, 0x0f, 0x74, 0x6c, 0x73, 0x31, 0x33, 0x20, 0x71, 0x75, 0x69, 0x63, 0x76, 0x32, 0x20, 0x69,
     0x76, 0x00]
  const V2_HP: bytes :=
    [0x00, 0x10, 0x0f, 0x74, 0x6c, 0x73, 0x31, 0x33, 0x20, 0x71, 0x75, 0x69, 0x63, 0x76, 0x32, 0x20, 0x68,
     0x70, 0x00]

  // The salts (section 5.2 of RFC 9001; section 3.3.1 of RFC 9369).
  const V1_SALT: bytes :=
    [0x38, 0x76, 0x2c, 0xf7, 0xf5, 0x59, 0x34, 0xb3, 0x4d, 0x17, 0x9a, 0xe6, 0xa4, 0xc8, 0x0c, 0xad, 0xcc, 0xbb,
     0x7f, 0x0a]
  const V2_SALT: bytes :=
    [0x0d, 0xed, 0xe3, 0xde, 0xf7, 0x00, 0xa6, 0xdb, 0x81, 0x93, 0x81, 0xbe, 0x6e, 0x26, 0x9d, 0xcb, 0xf9, 0xbd,
     0x2e, 0xd9]

  lemma ClientInBytes()
    ensures HkdfLabel(32, Ascii("client in"), []) == CLIENT_IN
  {
  }

  lemma V1KeyBytes()
    ensures Info(1, ForPayload) == V1_KEY
  {
  }

  lemma V1IvBytes()
    ensures Info(1, ForNonce) == V1_IV
  {
  }

  lemma V1HpBytes()
    ensures Info(1, ForHeader) == V1_HP
  {
  }

  lemma V1Bytes()
    ensures Info(1, ForPayload) == V1_KEY && Info(1, ForNonce) == V1_IV && Info(1, ForHeader) == V1_HP
    ensures Salt(1) == V1_SALT
  {
    hide Info;
    V1KeyBytes();
    V1IvBytes();
    V1HpBytes();
  }

  lemma V2KeyBytes()
    ensures Info(0x6b3343cf, ForPayload) == V2_KEY
  {
  }

  lemma V2IvBytes()
    ensures Info(0x6b3343cf, ForNonce) == V2_IV
  {
  }

  lemma V2HpBytes()
    ensures Info(0x6b3343cf, ForHeader) == V2_HP
  {
  }

  lemma V2Bytes()
    ensures Info(0x6b3343cf, ForPayload) == V2_KEY && Info(0x6b3343cf, ForNonce) == V2_IV
    ensures Info(0x6b3343cf, ForHeader) == V2_HP
    ensures Salt(0x6b3343cf) == V2_SALT
  {
    hide Info;
    V2KeyBytes();
    V2IvBytes();
    V2HpBytes();
  }

  /** `out` is the first `length` bytes of HKDF-Expand under the label. */
  ghost predicate Expands(c: Crypto, prk: bytes, info: bytes, length: nat, out: bytes)
    requires Lawful(c)
  {
    && BlockCount(length, c.hashLen) <= 255 && |out| == length
    && out <= Blocks(c, prk, info, BlockCount(length, c.hashLen))
  }

  /** The client's Initial keys of a connection id: extracted under the version's salt, expanded under its labels. */
  ghost predicate InitialKeys(c: Crypto, dcid: bytes, salt: bytes, key: bytes, iv: bytes, hp: bytes, k: Keys)
    requires Lawful(c)
  {
    exists secret :: Expands(c, c.hmac(salt, dcid), CLIENT_IN, 32, secret)
      && Expands(c, secret, key, 16, k.key) && Expands(c, secret, iv, 12, k.iv) && Expands(c, secret, hp, 16, k.hp)
  }

  lemma SecretExpands(c: Crypto, dcid: bytes, version: nat)
    requires Lawful(c) && Known(version)
    ensures Expands(c, c.hmac(Salt(version), dcid), CLIENT_IN, 32, ClientSecret(c, dcid, version))
  {
    hide HkdfLabel;
    ClientInBytes();
  }

  lemma DerivedExpands(c: Crypto, secret: bytes, version: nat, use: Use)
    requires Lawful(c) && Known(version)
    ensures Expands(c, secret, Info(version, use), Length(use), Derived(c, secret, version, use))
  {
  }

  /** `derive_initial_keys` derives what the two RFCs prescribe. */
  lemma KeysArePrescribed(c: Crypto, dcid: bytes)
    requires Lawful(c)
    ensures InitialKeys(c, dcid, V1_SALT, V1_KEY, V1_IV, V1_HP, DeriveKeys(c, dcid, 1))
    ensures InitialKeys(c, dcid, V2_SALT, V2_KEY, V2_IV, V2_HP, DeriveKeys(c, dcid, 0x6b3343cf))
  {
    hide Expands, ExpandLabel, Info, Salt, ClientSecret, Derived;
    V1Bytes();
    V2Bytes();
    forall version, use | Known(version)
      ensures Expands(c, ClientSecret(c, dcid, version), Info(version, use), Length(use),
                      Derived(c, ClientSecret(c, dcid, version), version, use))
    {
      DerivedExpands(c, ClientSecret(c, dcid, version), version, use);
    }
    SecretExpands(c, dcid, 1);
    SecretExpands(c, dcid, 0x6b3343cf);
    DerivedExpands(c, ClientSecret(c, dcid, 1), 1, ForPayload);
    DerivedExpands(c, ClientSecret(c, dcid, 1), 1, ForNonce);
    DerivedExpands(c, ClientSecret(c, dcid, 1), 1, ForHeader);
    DerivedExpands(c, ClientSecret(c, dcid, 0x6b3343cf), 0x6b3343cf, ForPayload);
    DerivedExpands(c, ClientSecret(c, dcid, 0x6b3343cf), 0x6b3343cf, ForNonce);
    DerivedExpands(c, ClientSecret(c, dcid, 0x6b3343cf), 0x6b3343cf, ForHeader);
  }

  /** The first byte and the version of a protected Initial on the wire: long header, fixed bit, type 0 in version 1 and
      type 1 in version 2. */
  lemma FirstBytesOnTheWire(c: Crypto, p: Initial, rest: bytes)
    requires Lawful(c) && WellFormed(p)
    ensures var b := Protect(c, p) + rest;
      && |b| >= 7 && (p.version == 1 || p.version == 0x6b3343cf)
      && b[0] / 16 == (if p.version == 1 then 0xC else 0xD)
      && b[1..5] == if p.version == 1 then [0, 0, 0, 1] else [0x6b, 0x33, 0x43, 0xcf]
  {
    hide At, XorBits, Sealed, HeaderTail, DeriveKeys, EncodeVarint, IdPart;
    var k := DeriveKeys(c, p.dcid, p.version);
    var b := Protect(c, p) + rest;
    PacketLayout(c, k, p, rest);
    AtIndex(b, 0, [Xor(FirstByte(p), Mask(c, k, p)[0] % 16)], 0);
    XorLowNibble(FirstByte(p), Mask(c, k, p)[0] % 16);
    TailLayout(b, p);
    IdRead(b, p);
    ToFromBE(b[1..5]);
    VersionBytes();
  }

  lemma VersionBytes()
    ensures ToBE(1, 4) == [0, 0, 0, 1] && ToBE(0x6b3343cf, 4) == [0x6b, 0x33, 0x43, 0xcf]
  {
  }

  /** What is not looked into: a short or an over-long datagram, a short header, another version or packet type. */
  lemma OthersAreIgnored(c: Crypto, b: bytes)
    requires Lawful(c)
    requires || |b| < 7 || |b| > 65536 || b[0] < 128
             || (FromBE(b[1..5]) != 1 && FromBE(b[1..5]) != 0x6b3343cf)
             || (FromBE(b[1..5]) == 1 && b[0] / 16 % 4 != 0)
             || (FromBE(b[1..5]) == 0x6b3343cf && b[0] / 16 % 4 != 1)
    ensures ExtractClientHello(c, b) == None
  {
    hide FromBE, Varint;
  }

  /** Nor is a payload that cannot hold the AEAD's tag handed to it. */
  lemma ShortPayloadIsIgnored(c: Crypto, k: Keys, b: bytes, h: Header, first: byte, pnBytes: bytes)
    requires |k.iv| == 12 && 5 < h.pnOffset <= |b|
    requires h.length < |pnBytes| + 16 || |b| < h.pnOffset + |pnBytes| + 16
    ensures OpenAt(c, k, b, h, first, pnBytes) == None
  {
    SliceMeans(b, h.pnOffset + |pnBytes|, h.pnOffset + h.length);
  }
}
