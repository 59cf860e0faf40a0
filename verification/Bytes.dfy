/** Bytes, big-endian integers, Python slices and bitwise xor, as the wire-format modules use them. */
module Bytes {
  import opened Common

  type byte = x: int | 0 <= x < 256
  type bytes = seq<byte>

  function Min(a: int, b: int): (r: int)
    ensures r <= a && r <= b && (r == a || r == b)
  {
    if a <= b then a else b
  }

  /** `b[lo:hi]` for non-negative bounds: clamped, never out of range. */
  function Slice(b: bytes, lo: nat, hi: nat): bytes {
    var h := Min(hi, |b|);
    if lo >= h then [] else b[lo..h]
  }

  lemma SliceMeans(b: bytes, lo: nat, hi: nat)
    ensures |Slice(b, lo, hi)| == if lo >= hi || lo >= |b| then 0 else if hi <= |b| then hi - lo else |b| - lo
    ensures forall i :: 0 <= i < |Slice(b, lo, hi)| ==> Slice(b, lo, hi)[i] == b[lo + i]
  {
  }

  function Zeros(n: nat): (z: bytes)
    ensures |z| == n && forall i :: 0 <= i < n ==> z[i] == 0
  {
    seq(n, i => 0)
  }

  // ---- Big-endian integers ---------------------------------------------------------

  function Pow256(k: nat): (r: nat)
    ensures r > 0
  {
    if k == 0 then 1 else 256 * Pow256(k - 1)
  }

  /** `int.from_bytes(b, "big")`. */
  function FromBE(b: bytes): nat {
    if b == [] then 0 else FromBE(b[..|b| - 1]) * 256 + b[|b| - 1]
  }

  /** `n.to_bytes(k, "big")` for n below 256^k (the low k bytes of n otherwise). */
  function ToBE(n: nat, k: nat): (b: bytes)
    ensures |b| == k
  {
    if k == 0 then [] else ToBE(n / 256, k - 1) + [n % 256]
  }

  lemma {:induction false} FromToBE(n: nat, k: nat)
    requires n < Pow256(k)
    ensures FromBE(ToBE(n, k)) == n
  {
    if k > 0 {
      FromToBE(n / 256, k - 1);
      assert ToBE(n, k)[..k - 1] == ToBE(n / 256, k - 1);
    }
  }

  lemma {:induction false} FromBEBound(b: bytes)
    ensures FromBE(b) < Pow256(|b|)
  {
    if b != [] {
      FromBEBound(b[..|b| - 1]);
    }
  }

  lemma {:induction false} ToFromBE(b: bytes)
    ensures ToBE(FromBE(b), |b|) == b
  {
    if b != [] {
      ToFromBE(b[..|b| - 1]);
      assert b == b[..|b| - 1] + [b[|b| - 1]];
    }
  }

  /** The first byte of a big-endian number is its quotient by the weight of that place. */
  lemma {:induction false} ToBEHead(n: nat, k: nat, d: nat)
    requires k >= 1 && d <= 256 && n < d * Pow256(k - 1)
    ensures ToBE(n, k)[0] < d
  {
    if k == 1 {
      assert ToBE(n / 256, 0) == [];
    } else {
      assert n / 256 < d * Pow256(k - 2) by {
        assert d * Pow256(k - 1) == 256 * (d * Pow256(k - 2));
      }
      ToBEHead(n / 256, k - 1, d);
    }
  }

  lemma {:induction false} ToBEHeadAtLeast(n: nat, k: nat, d: nat)
    requires k >= 1 && d * Pow256(k - 1) <= n < Pow256(k)
    ensures ToBE(n, k)[0] >= d
  {
    if k == 1 {
      assert ToBE(n / 256, 0) == [];
    } else {
      assert d * Pow256(k - 1) == 256 * (d * Pow256(k - 2));
      ToBEHeadAtLeast(n / 256, k - 1, d);
    }
  }

  function U16(n: nat): (b: bytes)
    requires n < 65536
    ensures |b| == 2
  {
    [n / 256, n % 256]
  }

  function ReadU16(b: bytes, i: nat): (n: nat)
    requires i + 2 <= |b|
    ensures n < 65536
  {
    var high: nat, low: nat := b[i], b[i + 1];
    high * 256 + low
  }

  // ---- Bitwise xor -----------------------------------------------------------------

  /** xor of the low n bits, least significant first. */
  function XorBits(a: nat, b: nat, n: nat): nat {
    if n == 0 then 0 else (a % 2 + b % 2) % 2 + 2 * XorBits(a / 2, b / 2, n - 1)
  }

  lemma {:induction false} XorBitsBound(a: nat, b: nat, n: nat)
    ensures XorBits(a, b, n) < Pow2(n)
  {
    if n > 0 {
      XorBitsBound(a / 2, b / 2, n - 1);
    }
  }

  /** The k-th bit of the xor is set where exactly one of the two is. */
  lemma {:induction false} XorBitAt(a: nat, b: nat, n: nat, k: nat)
    requires k < n
    ensures XorBits(a, b, n) / Pow2(k) % 2 == 1 <==> (a / Pow2(k) % 2 == 1) != (b / Pow2(k) % 2 == 1)
  {
    XorBitsHalves(a, b, n);
    if k > 0 {
      XorBitAt(a / 2, b / 2, n - 1, k - 1);
      HalvesShift(a, k);
      HalvesShift(b, k);
      HalvesShift(XorBits(a, b, n), k);
    }
  }

  lemma HalvesShift(a: nat, k: nat)
    requires k > 0
    ensures a / Pow2(k) == a / 2 / Pow2(k - 1)
  {
    var d := Pow2(k - 1);
    var q, r := a / 2 / d, a / 2 % d;
    assert a / 2 == q * d + r && a == 2 * (a / 2) + a % 2;
    assert a == q * (2 * d) + (2 * r + a % 2);
    QuotientIs(a, 2 * d, q, 2 * r + a % 2);
  }

  lemma QuotientIs(a: nat, d: nat, q: nat, r: nat)
    requires a == q * d + r && r < d
    ensures a / d == q
  {
    ModOfMultiple(q, r, d);
    assert a == a / d * d + r;
    assert (a / d - q) * d == 0;
  }

  lemma Halves(bit: nat, rest: nat)
    requires bit < 2
    ensures (bit + 2 * rest) % 2 == bit && (bit + 2 * rest) / 2 == rest
  {
  }

  lemma {:induction false} XorBitsHalves(a: nat, b: nat, n: nat)
    requires n > 0
    ensures XorBits(a, b, n) % 2 == (a % 2 + b % 2) % 2
    ensures XorBits(a, b, n) / 2 == XorBits(a / 2, b / 2, n - 1)
  {
    Halves((a % 2 + b % 2) % 2, XorBits(a / 2, b / 2, n - 1));
  }

  lemma BitTwice(p: nat, q: nat)
    requires p < 2 && q < 2
    ensures ((p + q) % 2 + q) % 2 == p
  {
  }

  lemma {:induction false} XorBitsInvolutive(a: nat, b: nat, n: nat)
    requires a < Pow2(n)
    ensures XorBits(XorBits(a, b, n), b, n) == a
  {
    if n > 0 {
      XorBitsInvolutive(a / 2, b / 2, n - 1);
      XorBitsHalves(a, b, n);
      BitTwice(a % 2, b % 2);
    }
  }

  function Xor(a: byte, b: byte): byte {
    XorBitsBound(a, b, 8);
    assert Pow2(8) == 256;
    XorBits(a, b, 8)
  }

  lemma XorInvolutive(a: byte, b: byte)
    ensures Xor(Xor(a, b), b) == a
  {
    assert Pow2(8) == 256;
    XorBitsInvolutive(a, b, 8);
  }

  lemma Quarter(a: nat)
    ensures a / 2 / 2 / 2 / 2 == a / 16
  {
  }

  /** xor with a value below 16 leaves the high nibble alone. */
  lemma XorLowNibble(a: byte, m: byte)
    requires m < 16
    ensures Xor(a, m) / 16 == a / 16
  {
    hide XorBits;
    XorBitsHalves(a, m, 8);
    XorBitsHalves(a / 2, m / 2, 7);
    XorBitsHalves(a / 2 / 2, m / 2 / 2, 6);
    XorBitsHalves(a / 2 / 2 / 2, m / 2 / 2 / 2, 5);
    Quarter(XorBits(a, m, 8));
    Quarter(a);
    Quarter(m);
    assert Pow2(4) == 16;
    XorBitsZero(a / 16, 4);
  }

  lemma {:induction false} XorBitsZero(a: nat, n: nat)
    requires a < Pow2(n)
    ensures XorBits(a, 0, n) == a
  {
    if n > 0 {
      XorBitsZero(a / 2, n - 1);
    }
  }

  /** `bytes(x ^ y for x, y in zip(a, b))`. */
  function XorAll(a: bytes, b: bytes): (r: bytes)
    requires |a| == |b|
    ensures |r| == |a| && forall i :: 0 <= i < |a| ==> r[i] == Xor(a[i], b[i])
  {
    seq(|a|, i requires 0 <= i < |a| => Xor(a[i], b[i]))
  }

  lemma XorAllInvolutive(a: bytes, b: bytes)
    requires |a| == |b|
    ensures XorAll(XorAll(a, b), b) == a
  {
    forall i | 0 <= i < |a| ensures XorAll(XorAll(a, b), b)[i] == a[i] {
      XorInvolutive(a[i], b[i]);
    }
  }

  // ---- Encodings in place -------------------------------------------------------------

  /** The bytes `e` stand in `b` at offset `off`. */
  ghost predicate At(b: bytes, off: nat, e: bytes) {
    off + |e| <= |b| && b[off..off + |e|] == e
  }

  lemma AtConcat(b: bytes, off: nat, x: bytes, y: bytes)
    requires At(b, off, x + y)
    ensures At(b, off, x) && At(b, off + |x|, y)
  {
    assert b[off..off + |x|] == (x + y)[..|x|] == x;
    assert b[off + |x|..off + |x| + |y|] == (x + y)[|x|..] == y;
  }

  lemma AtIndex(b: bytes, off: nat, e: bytes, i: nat)
    requires At(b, off, e) && i < |e|
    ensures b[off + i] == e[i]
  {
    assert b[off..off + |e|][i] == b[off + i];
  }

  lemma AtSlice(b: bytes, off: nat, e: bytes)
    requires At(b, off, e)
    ensures Slice(b, off, off + |e|) == e
  {
  }

  lemma ReadU16At(b: bytes, off: nat, n: nat)
    requires n < 65536 && At(b, off, U16(n))
    ensures ReadU16(b, off) == n
  {
    AtIndex(b, off, U16(n), 0);
    AtIndex(b, off, U16(n), 1);
  }
}
