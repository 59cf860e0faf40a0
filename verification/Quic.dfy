/**
  QUIC variable-length integers and CRYPTO-stream reassembly (probes/_quic.py).
  As in the source, an ACK frame is taken to be four integers long.
  */
module Quic {
  import opened Common
  import opened Bytes

  // ---- Variable-length integers (section 16 of RFC 9000) ------------------------------

  function VarintSize(prefix: nat): (n: nat)
    requires prefix < 4
    ensures 1 <= n <= 8
  {
    if prefix == 0 then 1 else if prefix == 1 then 2 else if prefix == 2 then 4 else 8
  }

  /** `_varint`: the value and the offset after it. */
  function Varint(b: bytes, off: nat): (r: Option<(nat, nat)>)
    ensures r.Some? ==> off < r.value.1 <= |b|
  {
    if off >= |b| then None else
      var n := VarintSize(b[off] / 64);
      if off + n > |b| then None else Some((FromBE([b[off] % 64] + b[off + 1..off + n]), off + n))
  }

  lemma FromBESnoc(b: bytes, x: byte)
    ensures FromBE(b + [x]) == FromBE(b) * 256 + x
  {
    assert (b + [x])[..|b|] == b;
  }

  method ReadVarint(b: bytes, off: nat) returns (r: Option<(nat, nat)>)
    ensures r == Varint(b, off)
  {
    if off >= |b| {
      return None;
    }
    var length := VarintSize(b[off] / 64);
    if off + length > |b| {
      return None;
    }
    var val: nat := b[off] % 64;
    assert FromBE([b[off] % 64]) == val by { FromBESnoc([], b[off] % 64); assert [] + [b[off] % 64] == [b[off] % 64]; }
    assert [b[off] % 64] + b[off + 1..off + 1] == [b[off] % 64];
    for i := 1 to length
      invariant val == FromBE([b[off] % 64] + b[off + 1..off + i])
    {
      FromBESnoc([b[off] % 64] + b[off + 1..off + i], b[off + i]);
      assert [b[off] % 64] + b[off + 1..off + i + 1] == ([b[off] % 64] + b[off + 1..off + i]) + [b[off + i]];
      var digit: nat := b[off + i];
      val := val * 256 + digit;
    }
    return Some((val, off + length));
  }

  predicate VarintFits(v: nat, prefix: nat) {
    prefix < 4 && v < 64 * Pow256(VarintSize(prefix) - 1)
  }

  /** The encoding with the given two-bit length prefix; it need not be the shortest. */
  function EncodeVarint(v: nat, prefix: nat): (b: bytes)
    requires VarintFits(v, prefix)
    ensures |b| == VarintSize(prefix)
  {
    var n := VarintSize(prefix);
    ToBEHead(v, n, 64);
    [ToBE(v, n)[0] + 64 * prefix] + ToBE(v, n)[1..]
  }

  lemma EncodedBytes(v: nat, prefix: nat)
    requires VarintFits(v, prefix)
    ensures var e := EncodeVarint(v, prefix); e[0] / 64 == prefix && [e[0] % 64] + e[1..] == ToBE(v, VarintSize(prefix))
  {
    var n := VarintSize(prefix);
    ToBEHead(v, n, 64);
    HeadSplits(ToBE(v, n)[0], prefix);
  }

  lemma EncodedValue(v: nat, prefix: nat)
    requires VarintFits(v, prefix)
    ensures FromBE(ToBE(v, VarintSize(prefix))) == v
  {
    var n := VarintSize(prefix);
    assert Pow256(n) == 256 * Pow256(n - 1);
    FromToBE(v, n);
  }

  /** Decoding inverts all four encodings, wherever they stand. */
  lemma VarintRoundTrip(b: bytes, off: nat, v: nat, prefix: nat)
    requires VarintFits(v, prefix) && At(b, off, EncodeVarint(v, prefix))
    ensures Varint(b, off) == Some((v, off + VarintSize(prefix)))
  {
    var n, e := VarintSize(prefix), EncodeVarint(v, prefix);
    AtIndex(b, off, e, 0);
    EncodedBytes(v, prefix);
    EncodedValue(v, prefix);
    assert b[off + 1..off + n] == b[off..off + n][1..] == e[1..];
  }

  lemma HeadSplits(h: nat, prefix: nat)
    requires h < 64 && prefix < 4
    ensures (h + 64 * prefix) / 64 == prefix && (h + 64 * prefix) % 64 == h
  {
  }

  lemma {:induction false} FromBECons(x: byte, rest: bytes)
    ensures FromBE([x] + rest) == x * Pow256(|rest|) + FromBE(rest)
    decreases |rest|
  {
    hide FromBE;
    if rest == [] {
      assert [x] + rest == [] + [x];
      FromBESnoc([], x);
      FromBENone();
    } else {
      var n := |rest| - 1;
      FromBECons(x, rest[..n]);
      FromBESnoc([x] + rest[..n], rest[n]);
      FromBESnoc(rest[..n], rest[n]);
      assert [x] + rest == ([x] + rest[..n]) + [rest[n]] && rest == rest[..n] + [rest[n]];
      Shifted(x, Pow256(n), FromBE(rest[..n]), rest[n]);
    }
  }

  lemma FromBENone()
    ensures FromBE([]) == 0
  {
  }

  lemma {:induction false} Shifted(x: nat, p: nat, r: nat, y: nat)
    ensures (x * p + r) * 256 + y == x * (256 * p) + (r * 256 + y)
  {
  }

  lemma {:induction false} HeadMasked(x: nat, p: nat, r: nat)
    requires p > 0 && r < p
    ensures (x * p + r) % (64 * p) == x % 64 * p + r
  {
    var q, y := x / 64, x % 64;
    assert x == q * 64 + y;
    HeadRegroups(q, y, p, r);
    BelowTop(y, p, r);
    ModOfMultiple(q, y * p + r, 64 * p);
  }

  lemma {:induction false} HeadRegroups(q: nat, y: nat, p: nat, r: nat)
    ensures (q * 64 + y) * p + r == q * (64 * p) + (y * p + r)
  {
    assert (q * 64 + y) * p == q * 64 * p + y * p;
    assert q * 64 * p == q * (64 * p);
  }

  lemma {:induction false} BelowTop(y: nat, p: nat, r: nat)
    requires y < 64 && r < p
    ensures y * p + r < 64 * p
  {
    assert (63 - y) * p >= 0;
  }

  lemma {:induction false} SizesArePowers(prefix: nat)
    requires prefix < 4
    ensures VarintSize(prefix) == Pow2(prefix)
  {
    assert Pow2(0) == 1 && Pow2(1) == 2 && Pow2(2) == 4 && Pow2(3) == 8;
  }

  lemma {:induction false} TopBits(n: nat)
    requires 1 <= n
    ensures Pow2(8 * n - 2) == 64 * Pow256(n - 1)
  {
    if n == 1 {
      assert Pow2(6) == 64;
    } else {
      TopBits(n - 1);
      var k := 8 * n - 10;
      assert Pow2(k + 8) == 2 * Pow2(k + 7) == 4 * Pow2(k + 6) == 8 * Pow2(k + 5) == 16 * Pow2(k + 4);
      assert Pow2(k + 4) == 2 * Pow2(k + 3) == 4 * Pow2(k + 2) == 8 * Pow2(k + 1) == 16 * Pow2(k);
    }
  }

  /** On every buffer, by the bytes: the two high bits of the first give the length, 1, 2, 4 or 8; the value is that of
      the bytes without those two bits; and decoding fails exactly when fewer bytes are left. */
  lemma {:induction false} VarintReadsTheBytes(b: bytes, off: nat)
    requires off < |b|
    ensures var n := Pow2(b[off] / 64);
      Varint(b, off) == if off + n > |b| then None else Some((FromBE(b[off..off + n]) % Pow2(8 * n - 2), off + n))
  {
    hide FromBE, Pow256;
    var n := VarintSize(b[off] / 64);
    SizesArePowers(b[off] / 64);
    if off + n <= |b| {
      var x, rest := b[off], b[off + 1..off + n];
      assert b[off..off + n] == [x] + rest;
      FromBECons(x, rest);
      FromBECons(x % 64, rest);
      FromBEBound(rest);
      HeadMasked(x, Pow256(n - 1), FromBE(rest));
      TopBits(n);
    }
  }

  /** Which values fit, and what the four encodings look like on the wire. */
  lemma FourEncodings(v: nat)
    ensures VarintFits(v, 0) <==> v < 0x40
    ensures VarintFits(v, 1) <==> v < 0x4000
    ensures VarintFits(v, 2) <==> v < 0x4000_0000
    ensures VarintFits(v, 3) <==> v < 0x4000_0000_0000_0000
    ensures v < 0x40 ==> EncodeVarint(v, 0) == [v]
    ensures v < 0x4000 ==> EncodeVarint(v, 1) == [0x40 + v / 256, v % 256]
    ensures v < 0x4000_0000 ==> |EncodeVarint(v, 2)| == 4 && EncodeVarint(v, 2)[0] / 64 == 2
    ensures v < 0x4000_0000_0000_0000 ==> |EncodeVarint(v, 3)| == 8 && EncodeVarint(v, 3)[0] / 64 == 3
  {
    assert Pow256(0) == 1 && Pow256(1) == 256 && Pow256(3) == 0x100_0000 && Pow256(7) == 0x100_0000_0000_0000;
    if v < 0x40 { EncodedShort(v); }
    if v < 0x4000 { EncodedPair(v); }
    if v < 0x4000_0000 { EncodedBytes(v, 2); }
    if v < 0x4000_0000_0000_0000 { EncodedBytes(v, 3); }
  }

  lemma EncodedShort(v: nat)
    requires v < 0x40
    ensures VarintFits(v, 0) && EncodeVarint(v, 0) == [v]
  {
    assert Pow256(0) == 1;
    assert ToBE(v, 1) == ToBE(v / 256, 0) + [v % 256];
  }

  lemma EncodedPair(v: nat)
    requires v < 0x4000
    ensures VarintFits(v, 1) && EncodeVarint(v, 1) == [0x40 + v / 256, v % 256]
  {
    assert Pow256(1) == 256;
    assert ToBE(v, 2) == ToBE(v / 256, 1) + [v % 256];
    assert ToBE(v / 256, 1) == ToBE(v / 256 / 256, 0) + [v / 256 % 256];
  }

  // ---- Frame parsing -------------------------------------------------------------------

  type Chunks = map<int, bytes>

  /** Skip `n` integers; None when one does not decode. */
  function SkipVarints(b: bytes, off: nat, n: nat): (r: Option<nat>)
    ensures r.Some? ==> off <= r.value
    decreases n
  {
    if n == 0 then Some(off) else
      var v := Varint(b, off);
      if v.None? then None else SkipVarints(b, v.value.1, n - 1)
  }

  /** One turn of the parsing loop: the next offset and the chunk table, or None to stop. */
  function FrameStep(f: bytes, off: nat, chunks: Chunks): (r: Option<(nat, Chunks)>)
    requires off < |f|
    ensures r.Some? ==> r.value.0 > off
  {
    if f[off] == 0 || f[off] == 1 then Some((off + 1, chunks))
    else if f[off] == 2 || f[off] == 3 then
      var after := SkipVarints(f, off + 1, 4);
      if after.None? then None else Some((after.value, chunks))
    else if f[off] == 6 then
      var o := Varint(f, off + 1);
      if o.None? then None else
        var n := Varint(f, o.value.1);
        if n.None? then None else
          var p := n.value.1;
          Some((p + n.value.0, chunks[o.value.0 := Slice(f, p, p + n.value.0)]))
    else None
  }

  function Frames(f: bytes, off: nat, chunks: Chunks): Chunks
    decreases if off < |f| then |f| - off else 0
  {
    if off >= |f| then chunks else
      var next := FrameStep(f, off, chunks);
      if next.None? then chunks else Frames(f, next.value.0, next.value.1)
  }

  /** The loop of `_join` over the sorted offsets. */
  function JoinKeys(chunks: Chunks, keys: seq<int>, out: bytes): bytes
    requires forall i :: 0 <= i < |keys| ==> keys[i] in chunks
  {
    if keys == [] || keys[0] != |out| then out else JoinKeys(chunks, keys[1..], out + chunks[keys[0]])
  }

  function Join(chunks: Chunks): Option<bytes> {
    var out := JoinKeys(chunks, Listing(chunks.Keys), []);
    if out == [] then None else Some(out)
  }

  function Reassemble(f: bytes): Option<bytes> {
    Join(Frames(f, 0, map[]))
  }

  lemma JoinStep(chunks: Chunks, keys: seq<int>, out: bytes)
    requires forall i :: 0 <= i < |keys| ==> keys[i] in chunks
    ensures JoinKeys(chunks, keys, out) ==
      if keys == [] || keys[0] != |out| then out else JoinKeys(chunks, keys[1..], out + chunks[keys[0]])
  {
  }

  /** `_join`. */
  method JoinChunks(chunks: Chunks) returns (r: Option<bytes>)
    ensures r == Join(chunks)
  {
    hide JoinKeys;
    if chunks == map[] {
      JoinStep(chunks, [], []);
      return None;
    }
    var out: bytes := [];
    var keys := Listing(chunks.Keys);
    var todo := keys;
    while todo != []
      invariant forall i :: 0 <= i < |todo| ==> todo[i] in chunks
      invariant JoinKeys(chunks, todo, out) == JoinKeys(chunks, keys, [])
      decreases |todo|
    {
      JoinStep(chunks, todo, out);
      if todo[0] != |out| {
        break;
      }
      out := out + chunks[todo[0]];
      todo := todo[1..];
    }
    JoinStep(chunks, todo, out);
    return if out == [] then None else Some(out);
  }

  /** The four integers of an ACK frame. */
  method SkipAck(f: bytes, off: nat) returns (r: Option<nat>)
    ensures r == SkipVarints(f, off, 4)
  {
    var next := off;
    for i := 0 to 4
      invariant SkipVarints(f, next, 4 - i) == SkipVarints(f, off, 4)
    {
      var v := ReadVarint(f, next);
      if v.None? {
        return None;
      }
      next := v.value.1;
    }
    return Some(next);
  }

  /** `_reassemble_crypto`. */
  method ReassembleCrypto(f: bytes) returns (r: Option<bytes>)
    ensures r == Reassemble(f)
  {
    hide Varint, SkipVarints, Join;
    var chunks: Chunks := map[];
    var off: nat := 0;
    while off < |f|
      invariant Frames(f, off, chunks) == Frames(f, 0, map[])
      decreases if off < |f| then |f| - off else 0
    {
      var kind := f[off];
      if kind == 0 || kind == 1 {
        off := off + 1;
        continue;
      }
      if kind == 2 || kind == 3 {
        var after := SkipAck(f, off + 1);
        if after.None? {
          break;
        }
        off := after.value;
        continue;
      }
      if kind == 6 {
        var o := ReadVarint(f, off + 1);
        if o.None? {
          break;
        }
        var n := ReadVarint(f, o.value.1);
        if n.None? {
          break;
        }
        var p := n.value.1;
        chunks := chunks[o.value.0 := Slice(f, p, p + n.value.0)];
        off := p + n.value.0;
        continue;
      }
      break;
    }
    r := JoinChunks(chunks);
  }

  // ---- Soundness: consistent chunks yield a prefix of the stream -------------------------

  ghost predicate Agrees(chunks: Chunks, stream: bytes) {
    forall k :: k in chunks ==> 0 <= k && k + |chunks[k]| <= |stream| && chunks[k] == stream[k..k + |chunks[k]|]
  }

  lemma {:induction false} JoinIsPrefix(chunks: Chunks, keys: seq<int>, out: bytes, stream: bytes)
    requires forall i :: 0 <= i < |keys| ==> keys[i] in chunks
    requires Agrees(chunks, stream) && out <= stream
    ensures JoinKeys(chunks, keys, out) <= stream
    decreases |keys|
  {
    if keys != [] && keys[0] == |out| {
      var k := keys[0];
      assert out + chunks[k] <= stream by {
        assert out + chunks[k] == stream[..k + |chunks[k]|];
      }
      JoinIsPrefix(chunks, keys[1..], out + chunks[k], stream);
    }
  }

  /** If every chunk kept from the frames agrees with one stream, the result is None or a prefix of it. */
  lemma ReassemblyIsSound(f: bytes, stream: bytes)
    requires Agrees(Frames(f, 0, map[]), stream)
    ensures Reassemble(f).Some? ==> Reassemble(f).value <= stream
  {
    var chunks := Frames(f, 0, map[]);
    JoinIsPrefix(chunks, Listing(chunks.Keys), [], stream);
  }

  // ---- Completeness: frames that tile the stream, in any order ---------------------------

  datatype Frame =
    | Padding
    | Ping
    | Ack(ecn: bool, fields: seq<(nat, nat)>)             // (value, length prefix) of the four integers
    | Crypto(offset: nat, offsetPrefix: nat, data: bytes, lengthPrefix: nat)

  predicate FrameFits(x: Frame) {
    match x
    case Ack(_, fields) => |fields| == 4 && forall i :: 0 <= i < 4 ==> VarintFits(fields[i].0, fields[i].1)
    case Crypto(o, op, data, lp) => VarintFits(o, op) && VarintFits(|data|, lp)
    case _ => true
  }

  predicate AllFit(fs: seq<Frame>) {
    forall i :: 0 <= i < |fs| ==> FrameFits(fs[i])
  }

  function EncodeFrame(x: Frame): bytes
    requires FrameFits(x)
  {
    match x
    case Padding => [0]
    case Ping => [1]
    case Ack(ecn, v) =>
      [if ecn then 3 else 2] + EncodeVarint(v[0].0, v[0].1) + EncodeVarint(v[1].0, v[1].1)
      + EncodeVarint(v[2].0, v[2].1) + EncodeVarint(v[3].0, v[3].1)
    case Crypto(o, op, data, lp) => [6] + EncodeVarint(o, op) + EncodeVarint(|data|, lp) + data
  }

  function EncodeFrames(fs: seq<Frame>): bytes
    requires AllFit(fs)
  {
    if fs == [] then [] else EncodeFrame(fs[0]) + EncodeFrames(fs[1..])
  }

  /** The chunk table the frames denote: a later frame replaces an earlier one at the same offset. */
  function Collect(fs: seq<Frame>, chunks: Chunks): Chunks {
    if fs == [] then chunks
    else Collect(fs[1..], Collected(fs[0], chunks))
  }

  function Collected(x: Frame, chunks: Chunks): Chunks {
    if x.Crypto? then chunks[x.offset := x.data] else chunks
  }

  lemma CryptoLayout(f: bytes, off: nat, x: Frame)
    requires x.Crypto? && FrameFits(x) && At(f, off, EncodeFrame(x))
    ensures At(f, off, [6])
    ensures At(f, off + 1, EncodeVarint(x.offset, x.offsetPrefix))
    ensures At(f, off + 1 + VarintSize(x.offsetPrefix), EncodeVarint(|x.data|, x.lengthPrefix))
    ensures At(f, off + 1 + VarintSize(x.offsetPrefix) + VarintSize(x.lengthPrefix), x.data)
  {
    var o, n := EncodeVarint(x.offset, x.offsetPrefix), EncodeVarint(|x.data|, x.lengthPrefix);
    AtConcat(f, off, [6] + o + n, x.data);
    AtConcat(f, off, [6] + o, n);
    AtConcat(f, off, [6], o);
  }

  lemma CryptoRead(f: bytes, off: nat, x: Frame)
    requires x.Crypto? && FrameFits(x) && At(f, off, EncodeFrame(x))
    ensures var o, n := VarintSize(x.offsetPrefix), VarintSize(x.lengthPrefix);
      && f[off] == 6
      && Varint(f, off + 1) == Some((x.offset, off + 1 + o))
      && Varint(f, off + 1 + o) == Some((|x.data|, off + 1 + o + n))
      && Slice(f, off + 1 + o + n, off + 1 + o + n + |x.data|) == x.data
  {
    var o, n := VarintSize(x.offsetPrefix), VarintSize(x.lengthPrefix);
    CryptoLayout(f, off, x);
    AtIndex(f, off, [6], 0);
    VarintRoundTrip(f, off + 1, x.offset, x.offsetPrefix);
    VarintRoundTrip(f, off + 1 + o, |x.data|, x.lengthPrefix);
    AtSlice(f, off + 1 + o + n, x.data);
  }

  lemma CryptoLength(x: Frame)
    requires x.Crypto? && FrameFits(x)
    ensures |EncodeFrame(x)| == 1 + VarintSize(x.offsetPrefix) + VarintSize(x.lengthPrefix) + |x.data|
  {
  }

  lemma StepKnown(f: bytes, off: nat, chunks: Chunks, o: (nat, nat), n: (nat, nat))
    requires off < |f| && f[off] == 6 && Varint(f, off + 1) == Some(o) && Varint(f, o.1) == Some(n)
    ensures FrameStep(f, off, chunks) == Some((n.1 + n.0, chunks[o.0 := Slice(f, n.1, n.1 + n.0)]))
  {
  }

  lemma CryptoParsed(f: bytes, off: nat, x: Frame, chunks: Chunks)
    requires x.Crypto? && FrameFits(x) && At(f, off, EncodeFrame(x))
    ensures FrameStep(f, off, chunks) == Some((off + |EncodeFrame(x)|, chunks[x.offset := x.data]))
  {
    hide EncodeVarint, At, Slice;
    CryptoRead(f, off, x);
    CryptoLength(x);
    var o := (x.offset, off + 1 + VarintSize(x.offsetPrefix));
    StepKnown(f, off, chunks, o, (|x.data|, o.1 + VarintSize(x.lengthPrefix)));
  }

  lemma AckLayout(f: bytes, off: nat, x: Frame)
    requires x.Ack? && FrameFits(x) && At(f, off, EncodeFrame(x))
    ensures var v := x.fields;
      var a, b, c := VarintSize(v[0].1), VarintSize(v[1].1), VarintSize(v[2].1);
      && At(f, off, [if x.ecn then 3 else 2])
      && At(f, off + 1, EncodeVarint(v[0].0, v[0].1))
      && At(f, off + 1 + a, EncodeVarint(v[1].0, v[1].1))
      && At(f, off + 1 + a + b, EncodeVarint(v[2].0, v[2].1))
      && At(f, off + 1 + a + b + c, EncodeVarint(v[3].0, v[3].1))
  {
    var v := x.fields;
    var a, b := EncodeVarint(v[0].0, v[0].1), EncodeVarint(v[1].0, v[1].1);
    var c, d := EncodeVarint(v[2].0, v[2].1), EncodeVarint(v[3].0, v[3].1);
    var kind: bytes := [if x.ecn then 3 else 2];
    AtConcat(f, off, kind + a + b + c, d);
    AtConcat(f, off, kind + a + b, c);
    AtConcat(f, off, kind + a, b);
    AtConcat(f, off, kind, a);
  }

  lemma AckSkipped(f: bytes, off: nat, x: Frame)
    requires x.Ack? && FrameFits(x) && At(f, off, EncodeFrame(x))
    ensures (f[off] == 2 || f[off] == 3) && SkipVarints(f, off + 1, 4) == Some(off + |EncodeFrame(x)|)
  {
    hide At, EncodeVarint, SkipVarints, EncodeFrame, VarintSize;
    var v := x.fields;
    AckLayout(f, off, x);
    AtIndex(f, off, [if x.ecn then 3 else 2], 0);
    SkipFour(f, off + 1, v[0], v[1], v[2], v[3]);
    AckLength(x);
  }

  lemma AckLength(x: Frame)
    requires x.Ack? && FrameFits(x)
    ensures var v := x.fields;
      |EncodeFrame(x)| == 1 + VarintSize(v[0].1) + VarintSize(v[1].1) + VarintSize(v[2].1) + VarintSize(v[3].1)
  {
  }

  ghost predicate VarintAt(f: bytes, off: nat, v: (nat, nat)) {
    VarintFits(v.0, v.1) && At(f, off, EncodeVarint(v.0, v.1))
  }

  lemma SkipFour(f: bytes, off: nat, p: (nat, nat), q: (nat, nat), r: (nat, nat), s: (nat, nat))
    requires VarintAt(f, off, p)
    requires VarintAt(f, off + VarintSize(p.1), q)
    requires VarintAt(f, off + VarintSize(p.1) + VarintSize(q.1), r)
    requires VarintAt(f, off + VarintSize(p.1) + VarintSize(q.1) + VarintSize(r.1), s)
    ensures SkipVarints(f, off, 4) == Some(off + VarintSize(p.1) + VarintSize(q.1) + VarintSize(r.1) + VarintSize(s.1))
  {
    hide EncodeVarint, At, VarintSize, SkipVarints;
    var a, b, c, d := VarintSize(p.1), VarintSize(q.1), VarintSize(r.1), VarintSize(s.1);
    SkipOne(f, off, p, 3);
    SkipOne(f, off + a, q, 2);
    SkipOne(f, off + a + b, r, 1);
    SkipOne(f, off + a + b + c, s, 0);
    SkipNone(f, off + a + b + c + d);
  }

  lemma SkipNone(f: bytes, off: nat)
    ensures SkipVarints(f, off, 0) == Some(off)
  {
  }

  lemma SkipOne(f: bytes, off: nat, v: (nat, nat), n: nat)
    requires VarintAt(f, off, v)
    ensures SkipVarints(f, off, n + 1) == SkipVarints(f, off + VarintSize(v.1), n)
  {
    VarintRoundTrip(f, off, v.0, v.1);
  }

  lemma FrameParsed(f: bytes, off: nat, x: Frame, chunks: Chunks)
    requires FrameFits(x) && At(f, off, EncodeFrame(x))
    ensures FrameStep(f, off, chunks) == Some((off + |EncodeFrame(x)|, Collected(x, chunks)))
  {
    if x.Crypto? {
      CryptoParsed(f, off, x, chunks);
    } else if x.Ack? {
      AckSkipped(f, off, x);
    } else {
      AtIndex(f, off, EncodeFrame(x), 0);
    }
  }

  lemma {:induction false} FramesFirst(f: bytes, off: nat, fs: seq<Frame>, chunks: Chunks)
    requires AllFit(fs) && At(f, off, EncodeFrames(fs))
    ensures Frames(f, off, chunks) == Frames(f, off + |EncodeFrames(fs)|, Collect(fs, chunks))
    decreases |fs|
  {
    hide At, FrameStep, EncodeFrame, Collected;
    if fs != [] {
      AtConcat(f, off, EncodeFrame(fs[0]), EncodeFrames(fs[1..]));
      FrameParsed(f, off, fs[0], chunks);
      FramesFirst(f, off + |EncodeFrame(fs[0])|, fs[1..], Collected(fs[0], chunks));
    }
  }

  /** Parsing a sequence of frames builds exactly the table they denote. */
  lemma FramesParsed(f: bytes, off: nat, fs: seq<Frame>, chunks: Chunks)
    requires AllFit(fs) && At(f, off, EncodeFrames(fs)) && off + |EncodeFrames(fs)| == |f|
    ensures Frames(f, off, chunks) == Collect(fs, chunks)
  {
    hide At, EncodeFrames, FrameStep, Collect;
    FramesFirst(f, off, fs, chunks);
  }

  /** Frames before one of unknown kind are kept; it and what follows it are not looked at. */
  lemma UnknownFrameStops(fs: seq<Frame>, kind: byte, rest: bytes)
    requires AllFit(fs) && kind !in {0, 1, 2, 3, 6}
    ensures Frames(EncodeFrames(fs) + [kind] + rest, 0, map[]) == Collect(fs, map[])
  {
    hide EncodeFrames, Collect;
    var f := EncodeFrames(fs) + [kind] + rest;
    assert f == EncodeFrames(fs) + ([kind] + rest);
    assert f[0..|EncodeFrames(fs)|] == EncodeFrames(fs) && f[|EncodeFrames(fs)|] == kind;
    FramesFirst(f, 0, fs, map[]);
  }

  /** A CRYPTO frame that the end of the packet cuts off contributes the bytes that are there. */
  lemma CutCryptoIsKept(fs: seq<Frame>, x: Frame, n: nat)
    requires AllFit(fs) && x.Crypto? && FrameFits(x) && n <= |x.data|
    ensures var cut := EncodeFrames(fs) + EncodeFrame(x)[..|EncodeFrame(x)| - |x.data| + n];
      Frames(cut, 0, map[]) == Collect(fs, map[])[x.offset := x.data[..n]]
  {
    hide EncodeFrames, Collect, EncodeFrame, Varint, FrameStep;
    var head, all := EncodeFrames(fs), EncodeFrame(x);
    CryptoLength(x);
    var m := |all| - |x.data| + n;
    var f := head + all[..m];
    assert f[0..|head|] == head;
    FramesFirst(f, 0, fs, map[]);
    CutCrypto(f, |head|, x, n, Collect(fs, map[]));
  }

  lemma CutTail(a: bytes, d: bytes, n: nat)
    requires n <= |d|
    ensures (a + d)[..|a + d| - |d| + n] == a + d[..n]
  {
  }

  lemma CutLayout(f: bytes, off: nat, x: Frame, n: nat)
    requires x.Crypto? && FrameFits(x) && n <= |x.data| && off <= |f|
    requires f[off..] == EncodeFrame(x)[..|EncodeFrame(x)| - |x.data| + n]
    ensures At(f, off, [6])
    ensures At(f, off + 1, EncodeVarint(x.offset, x.offsetPrefix))
    ensures At(f, off + 1 + VarintSize(x.offsetPrefix), EncodeVarint(|x.data|, x.lengthPrefix))
    ensures off + 1 + VarintSize(x.offsetPrefix) + VarintSize(x.lengthPrefix) + n == |f|
    ensures f[|f| - n..] == x.data[..n]
  {
    var o, l := EncodeVarint(x.offset, x.offsetPrefix), EncodeVarint(|x.data|, x.lengthPrefix);
    hide EncodeVarint;
    assert EncodeFrame(x) == [6] + o + l + x.data;
    var cut := [6] + o + l + x.data[..n];
    CutTail([6] + o + l, x.data, n);
    assert f[off..off + |cut|] == f[off..];
    AtConcat(f, off, [6] + o + l, x.data[..n]);
    AtConcat(f, off, [6] + o, l);
    AtConcat(f, off, [6], o);
  }

  lemma CutSlice(f: bytes, p: nat, data: bytes, n: nat)
    requires n <= |data| && p + n == |f| && f[|f| - n..] == data[..n]
    ensures Slice(f, p, p + |data|) == data[..n]
  {
  }

  lemma CutCrypto(f: bytes, off: nat, x: Frame, n: nat, chunks: Chunks)
    requires x.Crypto? && FrameFits(x) && n <= |x.data| && off <= |f|
    requires f[off..] == EncodeFrame(x)[..|EncodeFrame(x)| - |x.data| + n]
    ensures Frames(f, off, chunks) == chunks[x.offset := x.data[..n]]
  {
    hide EncodeVarint, EncodeFrame, Varint, FrameStep;
    var o, l := VarintSize(x.offsetPrefix), VarintSize(x.lengthPrefix);
    CutLayout(f, off, x, n);
    AtIndex(f, off, [6], 0);
    VarintRoundTrip(f, off + 1, x.offset, x.offsetPrefix);
    VarintRoundTrip(f, off + 1 + o, |x.data|, x.lengthPrefix);
    var p := off + 1 + o + l;
    StepKnown(f, off, chunks, (x.offset, off + 1 + o), (|x.data|, p));
    CutSlice(f, p, x.data, n);
    EndOfFrames(f, p + |x.data|, chunks[x.offset := x.data[..n]]);
  }

  lemma EndOfFrames(f: bytes, off: nat, chunks: Chunks)
    requires off >= |f|
    ensures Frames(f, off, chunks) == chunks
  {
  }

  predicate Covers(x: Frame, p: nat) {
    x.Crypto? && x.offset <= p < x.offset + |x.data|
  }

  ghost predicate Covered(fs: seq<Frame>, p: nat) {
    exists i :: 0 <= i < |fs| && Covers(fs[i], p)
  }

  /** The CRYPTO frames are non-empty pieces of the stream, two of them are the same piece or disjoint, and
      together they cover it. */
  ghost predicate Tiles(fs: seq<Frame>, stream: bytes) {
    && (forall i :: 0 <= i < |fs| && fs[i].Crypto? ==> Piece(fs[i].offset, fs[i].data, stream))
    && (forall i, j :: 0 <= i < |fs| && 0 <= j < |fs| && fs[i].Crypto? && fs[j].Crypto? ==>
      fs[i].offset < fs[j].offset ==> fs[i].offset + |fs[i].data| <= fs[j].offset)
    && (forall i, j :: 0 <= i < |fs| && 0 <= j < |fs| && fs[i].Crypto? && fs[j].Crypto? ==>
      fs[i].offset == fs[j].offset ==> fs[i].data == fs[j].data)
    && (forall p: nat :: p < |stream| ==> Covered(fs, p))
  }

  ghost predicate Piece(offset: int, data: bytes, stream: bytes) {
    0 <= offset && data != [] && offset + |data| <= |stream| && data == stream[offset..offset + |data|]
  }

  ghost predicate ChunkAt(chunks: Chunks, p: nat) {
    exists k :: k in chunks && k <= p < k + |chunks[k]|
  }

  ghost predicate ChunksTile(chunks: Chunks, stream: bytes) {
    && (forall k :: k in chunks ==> Piece(k, chunks[k], stream))
    && (forall k, l :: k in chunks && l in chunks && k < l ==> k + |chunks[k]| <= l)
    && (forall p: nat :: p < |stream| ==> ChunkAt(chunks, p))
  }

  lemma {:induction false} CollectKeys(fs: seq<Frame>, chunks: Chunks)
    ensures forall k :: k in Collect(fs, chunks) ==>
      || (k in chunks && Collect(fs, chunks)[k] == chunks[k])
      || (exists i :: 0 <= i < |fs| && fs[i].Crypto? && fs[i].offset == k && fs[i].data == Collect(fs, chunks)[k])
    ensures forall i :: 0 <= i < |fs| && fs[i].Crypto? ==> fs[i].offset in Collect(fs, chunks)
    ensures forall k :: k in chunks ==> k in Collect(fs, chunks)
    decreases |fs|
  {
    if fs != [] {
      var next := Collected(fs[0], chunks);
      CollectKeys(fs[1..], next);
      forall k | k in Collect(fs, chunks) && !(k in chunks && Collect(fs, chunks)[k] == chunks[k])
        ensures exists i :: 0 <= i < |fs| && fs[i].Crypto? && fs[i].offset == k && fs[i].data == Collect(fs, chunks)[k]
      {
        if k in next && Collect(fs, chunks)[k] == next[k] {
          assert fs[0].Crypto? && fs[0].offset == k;
        } else {
          var i :| 0 <= i < |fs[1..]| && fs[1..][i].Crypto? && fs[1..][i].offset == k
            && fs[1..][i].data == Collect(fs, chunks)[k];
          assert fs[i + 1] == fs[1..][i];
        }
      }
      forall i | 0 <= i < |fs| && fs[i].Crypto? ensures fs[i].offset in Collect(fs, chunks) {
        if i > 0 { assert fs[i] == fs[1..][i - 1]; }
      }
    }
  }

  ghost predicate From(fs: seq<Frame>, k: int, data: bytes) {
    exists i :: 0 <= i < |fs| && fs[i].Crypto? && fs[i].offset == k && fs[i].data == data
  }

  lemma CollectTiles(fs: seq<Frame>, stream: bytes)
    requires Tiles(fs, stream)
    ensures ChunksTile(Collect(fs, map[]), stream)
  {
    var m := Collect(fs, map[]);
    CollectKeys(fs, map[]);
    forall k | k in m ensures From(fs, k, m[k]) {
    }
    forall p: nat | p < |stream| ensures ChunkAt(m, p) {
      assert Covered(fs, p);
      var i :| 0 <= i < |fs| && Covers(fs[i], p);
      assert fs[i].offset in m && From(fs, fs[i].offset, m[fs[i].offset]);
    }
  }

  /** With everything before |out| consumed, the next offset is |out| itself, until the stream is complete. */
  lemma {:induction false} JoinCompletes(chunks: Chunks, keys: seq<int>, out: bytes, stream: bytes)
    requires ChunksTile(chunks, stream) && out <= stream
    requires forall i :: 0 <= i < |keys| ==> keys[i] in chunks && keys[i] >= |out|
    requires forall i, j :: 0 <= i < j < |keys| ==> keys[i] < keys[j]
    requires forall k :: k in chunks && k >= |out| ==> k in keys
    requires forall k :: k in chunks && k < |out| ==> k + |chunks[k]| <= |out|
    ensures JoinKeys(chunks, keys, out) == stream
    decreases |keys|
  {
    hide Piece;
    if |out| < |stream| {
      assert ChunkAt(chunks, |out|);
      var k :| k in chunks && k <= |out| < k + |chunks[k]|;
      assert k == |out| && k in keys;
      assert keys[0] == k;
      PieceExtends(k, chunks[k], stream, out);
      JoinCompletes(chunks, keys[1..], out + chunks[k], stream);
    } else if keys != [] {
      PieceFits(keys[0], chunks[keys[0]], stream);
    }
  }

  lemma PieceFits(k: int, data: bytes, stream: bytes)
    requires Piece(k, data, stream)
    ensures k < |stream|
  {
  }

  lemma PieceExtends(k: int, data: bytes, stream: bytes, out: bytes)
    requires Piece(k, data, stream) && out <= stream && k == |out|
    ensures data != [] && out + data <= stream
  {
    assert out + data == stream[..|out + data|];
  }

  /** CRYPTO frames that tile a stream, in any order and mixed with PADDING, PING and single-range ACK frames,
      are reassembled to the whole stream. */
  lemma ReassemblyIsComplete(fs: seq<Frame>, stream: bytes)
    requires AllFit(fs) && Tiles(fs, stream) && stream != []
    ensures Reassemble(EncodeFrames(fs)) == Some(stream)
  {
    hide EncodeFrames, Frames, Collect, Tiles, AllFit;
    var f := EncodeFrames(fs);
    FramesParsed(f, 0, fs, map[]);
    var m := Collect(fs, map[]);
    CollectTiles(fs, stream);
    forall k | k in m ensures k >= 0 { assert Piece(k, m[k], stream); }
    JoinCompletes(m, Listing(m.Keys), [], stream);
  }
}
