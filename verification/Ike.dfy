/**
  IKEv2 IKE_SA_INIT building and SA parsing (probes/_ike_packet.py, RFC 7296).  A transform is its type, id and
  key length; the friendly name and the classification are lookups on these three and are not modelled.
  */
module Ike {
  import opened Common
  import opened Bytes

  const PAYLOAD_NONE: byte := 0
  const PAYLOAD_SA: byte := 33
  const ATTR_KEY_LENGTH := 14
  const HEADER_LEN: nat := 28

  datatype Transform = Transform(kind: byte, id: nat, keyLen: Option<nat>)

  predicate InRange(t: Transform) {
    t.id < 65536 && (t.keyLen.Some? ==> t.keyLen.value < 65536)
  }

  predicate AllInRange(ts: seq<Transform>) {
    forall i :: 0 <= i < |ts| ==> InRange(ts[i])
  }

  // ---- Encoders --------------------------------------------------------------------------

  function Attrs(t: Transform): (b: bytes)
    requires InRange(t)
    ensures |b| <= 4
  {
    if t.keyLen.Some? then [0x80, 0x0E] + U16(t.keyLen.value) else []
  }

  /** `_transform`. */
  function EncodeTransform(t: Transform, more: bool): (b: bytes)
    requires InRange(t)
    ensures 8 <= |b| <= 12
  {
    [if more then 3 else 0, 0] + U16(8 + |Attrs(t)|) + [t.kind, 0] + U16(t.id) + Attrs(t)
  }

  /** `_transforms_block`. */
  function EncodeTransforms(ts: seq<Transform>): (b: bytes)
    requires AllInRange(ts)
    ensures |b| <= 12 * |ts|
  {
    if ts == [] then [] else EncodeTransform(ts[0], |ts| > 1) + EncodeTransforms(ts[1..])
  }

  /** A proposal of any number, protocol and SPI; `count` is what it says about its transforms. */
  function ProposalWith(number: byte, protocol: byte, spi: bytes, count: byte, ts: seq<Transform>): (b: bytes)
    requires AllInRange(ts) && |spi| < 256 && 8 + |spi| + |EncodeTransforms(ts)| < 65536
    ensures |b| == 8 + |spi| + |EncodeTransforms(ts)|
  {
    [0, 0] + U16(8 + |spi| + |EncodeTransforms(ts)|) + [number, protocol, |spi|, count] + spi + EncodeTransforms(ts)
  }

  /** `_proposal` number 1: IKE (protocol 1), no SPI. */
  function Proposal(ts: seq<Transform>): bytes
    requires AllInRange(ts) && |ts| <= 255
  {
    ProposalWith(1, 1, [], |ts|, ts)
  }

  /** `build_sa_payload`; more than 255 transforms do not fit the count byte, where the source raises. */
  function BuildSa(ts: seq<Transform>, next: byte): (b: bytes)
    requires AllInRange(ts) && |ts| <= 255
    ensures |b| == 12 + |EncodeTransforms(ts)|
  {
    [next, 0] + U16(4 + |Proposal(ts)|) + Proposal(ts)
  }

  // ---- Decoders ---------------------------------------------------------------------------

  function KeyLength(attrs: bytes, i: nat): Option<nat>
    decreases if i < |attrs| then |attrs| - i else 0
  {
    if i + 4 > |attrs| then None else
      var kind, value := ReadU16(attrs, i), ReadU16(attrs, i + 2);
      if kind >= 0x8000 then
        if kind % 0x8000 == ATTR_KEY_LENGTH then Some(value) else KeyLength(attrs, i + 4)
      else KeyLength(attrs, i + 4 + value)
  }

  /** `_attr_key_length`. */
  method AttrKeyLength(attrs: bytes) returns (r: Option<nat>)
    ensures r == KeyLength(attrs, 0)
  {
    var i: nat := 0;
    while i + 4 <= |attrs|
      invariant KeyLength(attrs, i) == KeyLength(attrs, 0)
      decreases if i < |attrs| then |attrs| - i else 0
    {
      var kind := ReadU16(attrs, i);
      if kind >= 0x8000 {
        var value := ReadU16(attrs, i + 2);
        i := i + 4;
        if kind % 0x8000 == ATTR_KEY_LENGTH {
          return Some(value);
        }
      } else {
        i := i + 4 + ReadU16(attrs, i + 2);
      }
    }
    return None;
  }

  /** The transform at offset t of a proposal ending at `end`, and its length; None where the loop stops. */
  function TransformAt(data: bytes, t: nat, end: nat): Option<(Transform, nat)> {
    if t + 8 > |data| then None else
      var length := ReadU16(data, t + 2);
      if length < 8 || t + length > |data| || t >= end then None
      else Some((Transform(data[t + 4], ReadU16(data, t + 6), KeyLength(data[t + 8..t + length], 0)), length))
  }

  /** At most n transforms from offset t. */
  function Transforms(data: bytes, t: nat, end: nat, n: nat): seq<Transform>
    decreases n
  {
    if n == 0 then [] else
      var x := TransformAt(data, t, end);
      if x.None? then [] else [x.value.0] + Transforms(data, t + x.value.1, end, n - 1)
  }

  function ProposalEnd(data: bytes): nat
    requires |data| >= 12
  {
    var length := ReadU16(data, 6);
    if length >= 8 then Min(4 + length, |data|) else |data|
  }

  function Sa(data: bytes): seq<Transform> {
    if |data| < 12 then [] else Transforms(data, 12 + data[10] as int, ProposalEnd(data), data[11])
  }

  method ReadTransform(data: bytes, t: nat, end: nat) returns (r: Option<(Transform, nat)>)
    ensures r == TransformAt(data, t, end)
  {
    if t + 8 > |data| {
      return None;
    }
    var length := ReadU16(data, t + 2);
    if length < 8 || t + length > |data| || t >= end {
      return None;
    }
    var keyLen := AttrKeyLength(data[t + 8..t + length]);
    return Some((Transform(data[t + 4], ReadU16(data, t + 6), keyLen), length));
  }

  /** `parse_sa_payload`. */
  method ParseSaPayload(data: bytes) returns (results: seq<Transform>)
    ensures results == Sa(data)
  {
    results := [];
    if |data| < 8 || 4 + 8 > |data| {
      return;
    }
    var t: nat := 12 + data[10] as int;
    var end := ProposalEnd(data);
    var n: nat := data[11];
    while n > 0
      invariant results + Transforms(data, t, end, n) == Sa(data)
    {
      var x := ReadTransform(data, t, end);
      if x.None? {
        break;
      }
      ConcatAssoc(results, [x.value.0], Transforms(data, t + x.value.1, end, n - 1));
      results := results + [x.value.0];
      t := t + x.value.1;
      n := n - 1;
    }
  }

  /** The payload walk from offset `off`, where a payload of type `kind` is expected. */
  function Walk(msg: bytes, kind: byte, off: nat): Option<bytes>
    decreases if off < |msg| then |msg| - off else 0
  {
    if kind == PAYLOAD_NONE || off + 4 > |msg| then None else
      var length := ReadU16(msg, off + 2);
      if length < 4 || off + length > |msg| then None
      else if kind == PAYLOAD_SA then Some(msg[off..off + length])
      else Walk(msg, msg[off], off + length)
  }

  /** `extract_sa_payload`. */
  method ExtractSaPayload(msg: bytes) returns (r: Option<bytes>)
    ensures r == if |msg| < 28 then None else Walk(msg, msg[16], 28)
  {
    if |msg| < HEADER_LEN {
      return None;
    }
    var kind := msg[16];
    var off: nat := HEADER_LEN;
    while kind != PAYLOAD_NONE && off + 4 <= |msg|
      invariant Walk(msg, kind, off) == Walk(msg, msg[16], HEADER_LEN)
      decreases if off < |msg| then |msg| - off else 0
    {
      var length := ReadU16(msg, off + 2);
      if length < 4 || off + length > |msg| {
        return None;
      }
      if kind == PAYLOAD_SA {
        return Some(msg[off..off + length]);
      }
      kind := msg[off];
      off := off + length;
    }
    return None;
  }

  // ---- The SA payload round trip -----------------------------------------------------------

  lemma KeyLengthRead(t: Transform)
    requires InRange(t)
    ensures KeyLength(Attrs(t), 0) == t.keyLen
  {
    if t.keyLen.Some? {
      var a := Attrs(t);
      assert U16(0x800E) == [0x80, 0x0E];
      assert At(a, 0, U16(0x800E)) && At(a, 2, U16(t.keyLen.value));
      ReadU16At(a, 0, 0x800E);
      ReadU16At(a, 2, t.keyLen.value);
    }
  }

  lemma TransformLayout(data: bytes, off: nat, t: Transform, more: bool)
    requires InRange(t) && At(data, off, EncodeTransform(t, more))
    ensures At(data, off + 2, U16(8 + |Attrs(t)|)) && data[off + 4] == t.kind
    ensures At(data, off + 6, U16(t.id)) && At(data, off + 8, Attrs(t))
  {
    var a, n, k, i := [if more then 3 else 0, 0], U16(8 + |Attrs(t)|), [t.kind, 0], U16(t.id);
    AtConcat(data, off, a + n + k + i, Attrs(t));
    AtConcat(data, off, a + n + k, i);
    AtConcat(data, off, a + n, k);
    AtConcat(data, off, a, n);
    AtIndex(data, off + 4, k, 0);
  }

  lemma TransformRead(data: bytes, off: nat, t: Transform, more: bool)
    requires InRange(t) && At(data, off, EncodeTransform(t, more))
    ensures var length := |EncodeTransform(t, more)|;
      && ReadU16(data, off + 2) == length && data[off + 4] == t.kind && ReadU16(data, off + 6) == t.id
      && KeyLength(data[off + 8..off + length], 0) == t.keyLen
  {
    TransformLayout(data, off, t, more);
    ReadU16At(data, off + 2, 8 + |Attrs(t)|);
    ReadU16At(data, off + 6, t.id);
    KeyLengthRead(t);
  }

  lemma TransformFound(data: bytes, off: nat, t: Transform, more: bool, end: nat)
    requires InRange(t) && At(data, off, EncodeTransform(t, more)) && off < end
    ensures TransformAt(data, off, end) == Some((t, |EncodeTransform(t, more)|))
  {
    TransformRead(data, off, t, more);
  }

  /** The transforms are read up to the end of the proposal, even if it announces more. */
  lemma {:induction false} TransformsRead(data: bytes, off: nat, ts: seq<Transform>, n: nat)
    requires AllInRange(ts) && At(data, off, EncodeTransforms(ts)) && |ts| <= n
    ensures Transforms(data, off, off + |EncodeTransforms(ts)|, n) == ts
    decreases |ts|
  {
    hide At, EncodeTransform, TransformAt;
    if ts == [] {
      NoTransformAtEnd(data, off);
    } else {
      var e := EncodeTransform(ts[0], |ts| > 1);
      AtConcat(data, off, e, EncodeTransforms(ts[1..]));
      TransformFound(data, off, ts[0], |ts| > 1, off + |EncodeTransforms(ts)|);
      TransformsRead(data, off + |e|, ts[1..], n - 1);
      assert ts == [ts[0]] + ts[1..];
    }
  }

  lemma NoTransformAtEnd(data: bytes, off: nat)
    ensures TransformAt(data, off, off).None?
  {
  }

  lemma SaLayout(data: bytes, header: bytes, number: byte, protocol: byte, spi: bytes, count: byte, ts: seq<Transform>,
                 rest: bytes)
    requires AllInRange(ts) && |header| == 4 && |spi| < 256 && 8 + |spi| + |EncodeTransforms(ts)| < 65536
    requires data == header + ProposalWith(number, protocol, spi, count, ts) + rest
    ensures At(data, 6, U16(8 + |spi| + |EncodeTransforms(ts)|)) && data[10] == |spi| && data[11] == count
    ensures At(data, 12 + |spi|, EncodeTransforms(ts))
  {
    var p, n := ProposalWith(number, protocol, spi, count, ts), U16(8 + |spi| + |EncodeTransforms(ts)|);
    var k: bytes := [number, protocol, |spi|, count];
    assert At(data, 4, p);
    AtConcat(data, 4, [0, 0] + n + k + spi, EncodeTransforms(ts));
    AtConcat(data, 4, [0, 0] + n + k, spi);
    AtConcat(data, 4, [0, 0] + n, k);
    AtConcat(data, 4, [0, 0], n);
    AtIndex(data, 8, k, 2);
    AtIndex(data, 8, k, 3);
  }

  /** The first proposal of any SA is read: whatever its number, protocol, SPI and announced count of transforms, and
      whatever follows it. */
  lemma SaRead(data: bytes, header: bytes, number: byte, protocol: byte, spi: bytes, count: byte, ts: seq<Transform>,
               rest: bytes)
    requires AllInRange(ts) && |header| == 4 && |spi| < 256 && 8 + |spi| + |EncodeTransforms(ts)| < 65536
    requires |ts| <= count
    requires data == header + ProposalWith(number, protocol, spi, count, ts) + rest
    ensures Sa(data) == ts
  {
    hide EncodeTransforms, Transforms, U16;
    SaLayout(data, header, number, protocol, spi, count, ts, rest);
    ReadU16At(data, 6, 8 + |spi| + |EncodeTransforms(ts)|);
    TransformsRead(data, 12 + |spi|, ts, count);
  }

  /** For every list of up to 255 in-range transforms, parsing inverts building. */
  lemma SaRoundTrip(ts: seq<Transform>, next: byte)
    requires AllInRange(ts) && |ts| <= 255
    ensures Sa(BuildSa(ts, next)) == ts
  {
    var header := [next, 0] + U16(4 + |Proposal(ts)|);
    assert BuildSa(ts, next) == header + ProposalWith(1, 1, [], |ts|, ts) + [];
    SaRead(BuildSa(ts, next), header, 1, 1, [], |ts|, ts, []);
  }

  // ---- The payload chain ----------------------------------------------------------------------

  datatype Payload = Payload(kind: byte, critical: byte, body: bytes)

  predicate ChainOk(ps: seq<Payload>) {
    forall i :: 0 <= i < |ps| ==> ps[i].kind != 0 && |ps[i].body| + 4 < 65536
  }

  /** The type the preceding header announces for this chain. */
  function FirstKind(ps: seq<Payload>): byte {
    if ps == [] then 0 else ps[0].kind
  }

  function EncodePayload(p: Payload, next: byte): bytes
    requires |p.body| + 4 < 65536
  {
    [next, p.critical] + U16(4 + |p.body|) + p.body
  }

  function EncodeChain(ps: seq<Payload>): bytes
    requires ChainOk(ps)
  {
    if ps == [] then [] else EncodePayload(ps[0], FirstKind(ps[1..])) + EncodeChain(ps[1..])
  }

  /** The first SA of a chain, with its generic header. */
  function FirstSa(ps: seq<Payload>): Option<bytes>
    requires ChainOk(ps)
  {
    if ps == [] then None
    else if ps[0].kind == 33 then Some(EncodePayload(ps[0], FirstKind(ps[1..])))
    else FirstSa(ps[1..])
  }

  lemma PayloadRead(msg: bytes, off: nat, p: Payload, next: byte)
    requires |p.body| + 4 < 65536 && At(msg, off, EncodePayload(p, next))
    ensures msg[off] == next && ReadU16(msg, off + 2) == 4 + |p.body|
    ensures msg[off..off + 4 + |p.body|] == EncodePayload(p, next)
  {
    AtConcat(msg, off, [next, p.critical] + U16(4 + |p.body|), p.body);
    AtConcat(msg, off, [next, p.critical], U16(4 + |p.body|));
    AtIndex(msg, off, [next, p.critical], 0);
    ReadU16At(msg, off + 2, 4 + |p.body|);
  }

  /** The walk finds the first SA of any well-formed chain, or nothing if there is none. */
  lemma {:induction false} WalkFindsFirstSa(msg: bytes, off: nat, ps: seq<Payload>)
    requires ChainOk(ps) && At(msg, off, EncodeChain(ps))
    ensures Walk(msg, FirstKind(ps), off) == FirstSa(ps)
    decreases |ps|
  {
    if ps != [] {
      var next := FirstKind(ps[1..]);
      AtConcat(msg, off, EncodePayload(ps[0], next), EncodeChain(ps[1..]));
      PayloadRead(msg, off, ps[0], next);
      WalkFindsFirstSa(msg, off + 4 + |ps[0].body|, ps[1..]);
    }
  }

  // ---- The whole request ------------------------------------------------------------------------

  /** `struct.pack("8s", x)`: cut or zero-padded to eight bytes. */
  function Pack8(x: bytes): (b: bytes)
    ensures |b| == 8
  {
    if |x| >= 8 then x[..8] else x + Zeros(8 - |x|)
  }

  function InitHeader(spi: bytes, total: nat): (h: bytes)
    ensures |h| == 28 && h[16] == 33
  {
    Pack8(spi) + Zeros(8) + [33, 0x20, 34, 0x08] + ToBE(0, 4) + ToBE(total, 4)
  }

  function InitPayloads(ts: seq<Transform>, ke: bytes, nonce: bytes): (ps: seq<Payload>)
    requires AllInRange(ts) && |ts| <= 255
    ensures |ps| == 3
  {
    [Payload(33, 0, Proposal(ts)), Payload(34, 0, U16(14) + U16(0) + ke), Payload(40, 0, nonce)]
  }

  /** `build_ike_sa_init` for any offer, initiator SPI, key-exchange data and nonce that fit. */
  function BuildInit(ts: seq<Transform>, spi: bytes, ke: bytes, nonce: bytes): bytes
    requires AllInRange(ts) && |ts| <= 255 && |ke| + 8 < 65536 && |nonce| + 4 < 65536
  {
    var payloads := EncodeChain(InitPayloads(ts, ke, nonce));
    InitHeader(spi, 28 + |payloads|) + payloads
  }

  lemma InitFirstSa(ts: seq<Transform>, ke: bytes, nonce: bytes)
    requires AllInRange(ts) && |ts| <= 255 && |ke| + 8 < 65536 && |nonce| + 4 < 65536
    ensures FirstSa(InitPayloads(ts, ke, nonce)) == Some(BuildSa(ts, 34))
  {
    var ps := InitPayloads(ts, ke, nonce);
    assert FirstKind(ps[1..]) == ps[1].kind;
  }

  lemma MessageWalk(header: bytes, ps: seq<Payload>)
    requires ChainOk(ps) && |header| == 28 && header[16] == FirstKind(ps)
    ensures var msg := header + EncodeChain(ps); msg[16] == header[16] && Walk(msg, msg[16], 28) == FirstSa(ps)
  {
    var msg := header + EncodeChain(ps);
    assert At(msg, 28, EncodeChain(ps));
    WalkFindsFirstSa(msg, 28, ps);
  }

  lemma InitWalk(ts: seq<Transform>, spi: bytes, ke: bytes, nonce: bytes, ps: seq<Payload>)
    requires AllInRange(ts) && |ts| <= 255 && |ke| + 8 < 65536 && |nonce| + 4 < 65536
    requires ps == InitPayloads(ts, ke, nonce) && ChainOk(ps) && FirstKind(ps) == 33
    requires FirstSa(ps) == Some(BuildSa(ts, 34))
    ensures var msg := BuildInit(ts, spi, ke, nonce);
      |msg| >= 28 && Walk(msg, msg[16], 28) == Some(BuildSa(ts, 34))
  {
    MessageWalk(InitHeader(spi, 28 + |EncodeChain(ps)|), ps);
  }

  /** The full IKE_SA_INIT parses back to exactly the transforms it offers. */
  lemma InitRoundTrip(ts: seq<Transform>, spi: bytes, ke: bytes, nonce: bytes)
    requires AllInRange(ts) && |ts| <= 255 && |ke| + 8 < 65536 && |nonce| + 4 < 65536
    ensures var msg := BuildInit(ts, spi, ke, nonce);
      |msg| >= 28 && Walk(msg, msg[16], 28) == Some(BuildSa(ts, 34))
    ensures Sa(BuildSa(ts, 34)) == ts
  {
    InitFirstSa(ts, ke, nonce);
    InitWalk(ts, spi, ke, nonce, InitPayloads(ts, ke, nonce));
    SaRoundTrip(ts, 34);
  }

  /** The request byte by byte: SPIs, next payload SA, version 2.0, exchange type IKE_SA_INIT, the initiator's flag,
      message id 0, the total length, and after the SA a KE payload of group 14 and the nonce. */
  lemma InitBytes(ts: seq<Transform>, spi: bytes, ke: bytes, nonce: bytes)
    requires AllInRange(ts) && |ts| <= 255 && |ke| + 8 < 65536 && |nonce| + 4 < 65536 && |spi| == 8
    ensures var msg := BuildInit(ts, spi, ke, nonce);
      msg == spi + [0, 0, 0, 0, 0, 0, 0, 0] + [33, 0x20, 34, 8] + [0, 0, 0, 0] + ToBE(|msg|, 4) + BuildSa(ts, 34)
             + ([40, 0] + U16(8 + |ke|) + [0, 14, 0, 0] + ke) + ([0, 0] + U16(4 + |nonce|) + nonce)
  {
    hide BuildSa, Proposal, ToBE, EncodeTransforms;
    var ps := InitPayloads(ts, ke, nonce);
    ProposalFits(ts);
    var sa, k, n := EncodePayload(ps[0], 34), EncodePayload(ps[1], 40), EncodePayload(ps[2], 0);
    ChainOfThree(ps);
    SaIsPayload(ts);
    KeBytes(ke);
    Header(spi, 28 + |EncodeChain(ps)|);
    assert spi + [0, 0, 0, 0, 0, 0, 0, 0] + [33, 0x20, 34, 8] + [0, 0, 0, 0] + ToBE(28 + |EncodeChain(ps)|, 4)
           + (sa + k + n)
        == spi + [0, 0, 0, 0, 0, 0, 0, 0] + [33, 0x20, 34, 8] + [0, 0, 0, 0] + ToBE(28 + |EncodeChain(ps)|, 4)
           + sa + k + n;
  }

  lemma ChainOfThree(ps: seq<Payload>)
    requires ChainOk(ps) && |ps| == 3
    ensures EncodeChain(ps)
         == EncodePayload(ps[0], ps[1].kind) + EncodePayload(ps[1], ps[2].kind) + EncodePayload(ps[2], 0)
  {
    hide EncodePayload;
    assert ps[1..][1..] == [ps[2]] && [ps[2]][1..] == [];
    assert EncodeChain([ps[2]]) == EncodePayload(ps[2], 0);
    assert EncodeChain(ps[1..]) == EncodePayload(ps[1], ps[2].kind) + EncodePayload(ps[2], 0);
  }

  lemma SaIsPayload(ts: seq<Transform>)
    requires AllInRange(ts) && |ts| <= 255
    ensures EncodePayload(Payload(33, 0, Proposal(ts)), 34) == BuildSa(ts, 34)
  {
  }

  lemma KeBytes(ke: bytes)
    requires |ke| + 8 < 65536
    ensures EncodePayload(Payload(34, 0, U16(14) + U16(0) + ke), 40)
         == [40, 0] + U16(8 + |ke|) + [0, 14, 0, 0] + ke
  {
    assert U16(14) + U16(0) == [0, 14, 0, 0];
  }

  lemma Header(spi: bytes, total: nat)
    requires |spi| == 8
    ensures InitHeader(spi, total)
         == spi + [0, 0, 0, 0, 0, 0, 0, 0] + [33, 0x20, 34, 8] + [0, 0, 0, 0] + ToBE(total, 4)
  {
    hide ToBE;
    ZeroWord();
    assert spi[..8] == spi && Zeros(8) == [0, 0, 0, 0, 0, 0, 0, 0];
  }

  lemma ZeroWord()
    ensures ToBE(0, 4) == [0, 0, 0, 0]
  {
    assert ToBE(0, 1) == ToBE(0, 0) + [0] == [0];
    assert ToBE(0, 2) == ToBE(0, 1) + [0] == [0, 0];
    assert ToBE(0, 3) == ToBE(0, 2) + [0] == [0, 0, 0];
  }

  lemma ProposalFits(ts: seq<Transform>)
    requires AllInRange(ts) && |ts| <= 255
    ensures |Proposal(ts)| + 4 < 65536
  {
  }
}
