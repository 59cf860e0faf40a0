/**
  The TLS 1.3 key schedule and record opening of probes/_tls13_keyschedule.py.
  HMAC, the AEAD and the AES block function are abstract: any functions obeying the laws of `Lawful`.
  */
module Tls13 {
  import opened Common
  import opened Bytes

  const TAG_LEN := 16

  datatype Crypto = Crypto(
    hashLen: nat,
    hmac: (bytes, bytes) -> bytes,                          // key, message
    seal: (bytes, bytes, bytes, bytes) -> bytes,            // key, nonce, plaintext, associated data
    open: (bytes, bytes, bytes, bytes) -> Option<bytes>,    // key, nonce, ciphertext, associated data
    block: (bytes, bytes) -> bytes)                         // AES-ECB of one block: key, sample

  ghost predicate Lawful(c: Crypto) {
    && c.hashLen >= 1
    && (forall k, m :: |c.hmac(k, m)| == c.hashLen)
    && (forall k, n, p, a :: |c.seal(k, n, p, a)| == |p| + 16)
    && (forall k, n, p, a :: c.open(k, n, c.seal(k, n, p, a), a) == Some(p))
    && (forall k, s :: |c.block(k, s)| == 16)
  }

  /** The laws are consistent: a stand-in that pads with zeros obeys them. */
  lemma LawsHaveAModel() returns (c: Crypto)
    ensures Lawful(c)
  {
    c := Crypto(32,
                (k: bytes, m: bytes) => Zeros(32),
                (k: bytes, n: bytes, p: bytes, a: bytes) => p + Zeros(TAG_LEN),
                (k: bytes, n: bytes, x: bytes, a: bytes) => if |x| < TAG_LEN then None else Some(x[..|x| - TAG_LEN]),
                (k: bytes, s: bytes) => Zeros(16));
    forall k: bytes, n: bytes, p: bytes, a: bytes
      ensures c.open(k, n, c.seal(k, n, p, a), a) == Some(p)
    {
      assert (p + Zeros(TAG_LEN))[..|p|] == p;
    }
  }

  // ---- HKDF-Expand -----------------------------------------------------------------

  /** T(i) of section 2.3 of RFC 5869. */
  function Block(c: Crypto, prk: bytes, info: bytes, i: nat): bytes
    requires i <= 255
  {
    if i == 0 then [] else c.hmac(prk, Block(c, prk, info, i - 1) + info + [i])
  }

  function Blocks(c: Crypto, prk: bytes, info: bytes, n: nat): bytes
    requires n <= 255
  {
    if n == 0 then [] else Blocks(c, prk, info, n - 1) + Block(c, prk, info, n)
  }

  function BlockCount(length: nat, hashLen: nat): nat
    requires hashLen >= 1
  {
    (length + hashLen - 1) / hashLen
  }

  lemma {:induction false} BlocksLength(c: Crypto, prk: bytes, info: bytes, n: nat)
    requires Lawful(c) && n <= 255
    ensures |Blocks(c, prk, info, n)| == n * c.hashLen
  {
    if n > 0 {
      BlocksLength(c, prk, info, n - 1);
      assert n * c.hashLen == (n - 1) * c.hashLen + c.hashLen;
    }
  }

  lemma {:induction false} BlocksPrefix(c: Crypto, prk: bytes, info: bytes, m: nat, n: nat)
    requires m <= n <= 255
    ensures Blocks(c, prk, info, m) <= Blocks(c, prk, info, n)
    decreases n - m
  {
    if m < n {
      BlocksPrefix(c, prk, info, m, n - 1);
    }
  }

  lemma CoversLength(length: nat, hashLen: nat)
    requires hashLen >= 1
    ensures BlockCount(length, hashLen) * hashLen >= length
    ensures length <= 255 * hashLen <==> BlockCount(length, hashLen) <= 255
  {
    var n := BlockCount(length, hashLen);
    assert length + hashLen - 1 == n * hashLen + (length + hashLen - 1) % hashLen;
    if n <= 255 { MulMono(n, 255, hashLen); }
    if n >= 256 { MulMono(256, n, hashLen); }
  }

  lemma MulMono(a: nat, b: nat, c: nat)
    requires a <= b
    ensures a * c <= b * c
  {
  }

  /** `hkdf_expand`: the first `length` bytes of T(1) | T(2) | ..., or the ValueError (None) of `bytes([256])`. */
  method HkdfExpand(c: Crypto, prk: bytes, info: bytes, length: nat) returns (r: Option<bytes>)
    requires Lawful(c)
    ensures r.Some? <==> length <= 255 * c.hashLen
    ensures r.Some? ==> |r.value| == length && BlockCount(length, c.hashLen) <= 255
    ensures r.Some? ==> r.value <= Blocks(c, prk, info, BlockCount(length, c.hashLen))
  {
    CoversLength(length, c.hashLen);
    var n := BlockCount(length, c.hashLen);
    var okm: bytes := [];
    var t: bytes := [];
    for i := 1 to n + 1
      invariant i <= 256
      invariant t == Block(c, prk, info, i - 1) && okm == Blocks(c, prk, info, i - 1)
    {
      if i > 255 {
        return None;
      }
      t := c.hmac(prk, t + info + [i]);
      okm := okm + t;
    }
    BlocksLength(c, prk, info, n);
    return Some(okm[..length]);
  }

  /** Asking for fewer bytes gives a prefix: the output stream does not depend on the length asked for. */
  lemma ExpandIsPrefixMonotone(c: Crypto, prk: bytes, info: bytes, a: bytes, b: bytes)
    requires Lawful(c) && |a| <= |b| <= 255 * c.hashLen
    requires BlockCount(|a|, c.hashLen) <= 255 && BlockCount(|b|, c.hashLen) <= 255
    requires a <= Blocks(c, prk, info, BlockCount(|a|, c.hashLen))
    requires b <= Blocks(c, prk, info, BlockCount(|b|, c.hashLen))
    ensures a <= b
  {
    var m, n := BlockCount(|a|, c.hashLen), BlockCount(|b|, c.hashLen);
    if m <= n {
      BlocksPrefix(c, prk, info, m, n);
    } else {
      BlocksPrefix(c, prk, info, n, m);
    }
  }

  // ---- HkdfLabel --------------------------------------------------------------------

  const TLS13: bytes := [0x74, 0x6C, 0x73, 0x31, 0x33, 0x20]   // "tls13 "

  predicate LabelFits(length: nat, tag: bytes, context: bytes) {
    length < 65536 && |tag| + 6 <= 255 && |context| <= 255
  }

  function HkdfLabel(length: nat, tag: bytes, context: bytes): bytes
    requires LabelFits(length, tag, context)
  {
    var full := TLS13 + tag;
    U16(length) + [|full|] + full + [|context|] + context
  }

  /** Different (length, tag, context) triples never share an encoding, so derived secrets are domain-separated. */
  lemma HkdfLabelInjective(n: nat, tag: bytes, context: bytes, n': nat, tag': bytes, context': bytes)
    requires LabelFits(n, tag, context) && LabelFits(n', tag', context')
    requires HkdfLabel(n, tag, context) == HkdfLabel(n', tag', context')
    ensures n == n' && tag == tag' && context == context'
  {
    var x, y := HkdfLabel(n, tag, context), HkdfLabel(n', tag', context');
    assert x[0] == n / 256 && x[1] == n % 256 && y[0] == n' / 256 && y[1] == n' % 256;
    assert x[2] == |tag| + 6 && y[2] == |tag'| + 6;
    assert x[9..9 + |tag|] == tag && y[9..9 + |tag'|] == tag';
    assert x[9 + |tag|] == |context| && y[9 + |tag'|] == |context'|;
    assert x[10 + |tag|..] == context && y[10 + |tag'|..] == context';
  }

  /** HKDF-Expand-Label; None where `struct.pack`, `bytes([...])` or the expansion would raise. */
  method HkdfExpandLabel(c: Crypto, secret: bytes, tag: bytes, context: bytes, length: nat) returns (r: Option<bytes>)
    requires Lawful(c)
    ensures r.Some? <==> length < 65536 && |tag| <= 249 && |context| <= 255 && length <= 255 * c.hashLen
    ensures r.Some? ==> |r.value| == length && BlockCount(length, c.hashLen) <= 255
    ensures r.Some? ==> LabelFits(length, tag, context)
    ensures r.Some? ==>
      r.value <= Blocks(c, secret, HkdfLabel(length, tag, context), BlockCount(length, c.hashLen))
  {
    if !LabelFits(length, tag, context) {
      return None;
    }
    r := HkdfExpand(c, secret, HkdfLabel(length, tag, context), length);
  }

  /** The bytes HKDF-Expand-Label yields, as a function. */
  function ExpandLabel(c: Crypto, secret: bytes, tag: bytes, context: bytes, length: nat): (r: bytes)
    requires Lawful(c) && LabelFits(length, tag, context) && length <= 255 * c.hashLen
    ensures |r| == length && BlockCount(length, c.hashLen) <= 255
    ensures r <= Blocks(c, secret, HkdfLabel(length, tag, context), BlockCount(length, c.hashLen))
  {
    CoversLength(length, c.hashLen);
    BlocksLength(c, secret, HkdfLabel(length, tag, context), BlockCount(length, c.hashLen));
    Blocks(c, secret, HkdfLabel(length, tag, context), BlockCount(length, c.hashLen))[..length]
  }

  // ---- Record protection ---------------------------------------------------------------

  /** `_record_nonce`. */
  function RecordNonce(iv: bytes, n: nat): bytes
    requires n < Pow256(|iv|)
  {
    XorAll(iv, ToBE(n, |iv|))
  }

  /** The nonce is the IV xor the sequence number: xor with the IV gives the number back. */
  lemma NonceHoldsSequence(iv: bytes, n: nat)
    requires n < Pow256(|iv|)
    ensures XorAll(RecordNonce(iv, n), iv) == ToBE(n, |iv|)
  {
    var b := ToBE(n, |iv|);
    forall i | 0 <= i < |iv| ensures XorAll(RecordNonce(iv, n), iv)[i] == b[i] {
      XorBitsCommute(iv[i], b[i], 8);
      XorInvolutive(b[i], iv[i]);
    }
  }

  /** Distinct sequence numbers get distinct nonces. */
  lemma NonceDeterminesSequence(iv: bytes, m: nat, n: nat)
    requires m < Pow256(|iv|) && n < Pow256(|iv|)
    requires RecordNonce(iv, m) == RecordNonce(iv, n)
    ensures m == n
  {
    var a, b := ToBE(m, |iv|), ToBE(n, |iv|);
    XorAllLeftInjective(iv, a, b);
    FromToBE(m, |iv|);
    FromToBE(n, |iv|);
  }

  lemma XorAllLeftInjective(k: bytes, a: bytes, b: bytes)
    requires |k| == |a| == |b| && XorAll(k, a) == XorAll(k, b)
    ensures a == b
  {
    forall i | 0 <= i < |a| ensures a[i] == b[i] {
      assert XorAll(k, a)[i] == XorAll(k, b)[i];
      XorLeftInjective(k[i], a[i], b[i]);
    }
  }

  lemma XorLeftInjective(k: byte, a: byte, b: byte)
    requires Xor(k, a) == Xor(k, b)
    ensures a == b
  {
    XorBitsCommute(k, a, 8);
    XorBitsCommute(k, b, 8);
    XorInvolutive(a, k);
    XorInvolutive(b, k);
  }

  lemma {:induction false} XorBitsCommute(a: nat, b: nat, n: nat)
    ensures XorBits(a, b, n) == XorBits(b, a, n)
  {
    if n > 0 {
      XorBitsCommute(a / 2, b / 2, n - 1);
    }
  }

  /** The tail of `aead_open`: drop zero padding, then the content-type byte. */
  method StripInner(inner: bytes) returns (r: Option<bytes>)
    ensures r.Some? ==> exists t: byte, k: nat :: t != 0 && inner == r.value + [t] + Zeros(k)
    ensures r.None? <==> inner == Zeros(|inner|)
  {
    var i := |inner| - 1;
    while i >= 0 && inner[i] == 0
      invariant -1 <= i < |inner|
      invariant forall j :: i < j < |inner| ==> inner[j] == 0
    {
      i := i - 1;
    }
    if i < 0 {
      return None;
    }
    r := Some(inner[..i]);
    assert inner == inner[..i] + [inner[i]] + Zeros(|inner| - 1 - i);
    assert inner[i] != Zeros(|inner|)[i];
  }

  /** The framing is unambiguous: content, nonzero type and zero padding can be split in one way only. */
  lemma InnerSplitUnique(x: bytes, t: byte, k: nat, x': bytes, t': byte, k': nat)
    requires t != 0 && t' != 0 && x + [t] + Zeros(k) == x' + [t'] + Zeros(k')
    ensures x == x' && t == t' && k == k'
  {
    var a, b := x + [t] + Zeros(k), x' + [t'] + Zeros(k');
    assert |a| == |x| + 1 + k && |b| == |x'| + 1 + k';
    assert a[|x|] == t && b[|x'|] == t';
    assert a[..|x|] == x && b[..|x'|] == x';
  }

  /** `aead_open`. */
  method AeadOpen(c: Crypto, key: bytes, iv: bytes, n: nat, record: bytes) returns (r: Option<bytes>)
    requires n < Pow256(|iv|)
    ensures |record| < 5 ==> r.None?
    ensures |record| >= 5 && c.open(key, RecordNonce(iv, n), record[5..], record[..5]).None? ==> r.None?
    ensures |record| >= 5 && c.open(key, RecordNonce(iv, n), record[5..], record[..5]).Some? ==>
      var inner := c.open(key, RecordNonce(iv, n), record[5..], record[..5]).value;
      (r.None? <==> inner == Zeros(|inner|)) &&
      (r.Some? ==> exists t: byte, k: nat :: t != 0 && inner == r.value + [t] + Zeros(k))
  {
    if |record| < 5 {
      return None;
    }
    var inner := c.open(key, RecordNonce(iv, n), record[5..], record[..5]);
    if inner.None? {
      return None;
    }
    r := StripInner(inner.value);
  }

  /** Opening a record sealed per sections 5.2-5.4 of RFC 8446 returns exactly its content. */
  method OpenSealed(c: Crypto, key: bytes, iv: bytes, n: nat, header: bytes, content: bytes, t: byte, pad: nat)
    returns (r: Option<bytes>)
    requires Lawful(c) && n < Pow256(|iv|) && |header| == 5 && t != 0
    ensures r == Some(content)
  {
    var inner := content + [t] + Zeros(pad);
    var record := header + c.seal(key, RecordNonce(iv, n), inner, header);
    assert record[..5] == header && record[5..] == c.seal(key, RecordNonce(iv, n), inner, header);
    r := AeadOpen(c, key, iv, n, record);
    assert inner[|content|] != Zeros(|inner|)[|content|];
    ghost var t': byte, k' :| t' != 0 && inner == r.value + [t'] + Zeros(k');
    InnerSplitUnique(content, t, pad, r.value, t', k');
  }
}
