/**
  Kerberos DER (probes/_krb_asn1.py): the TLV encoders, the defensive decoders, and the parser of KDC replies.
  An exception of the source (IndexError or ValueError) is None here.
  */
module Kerberos {
  import opened Common
  import opened Bytes

  const TAG_INTEGER: byte := 0x02
  const TAG_OCTET_STRING: byte := 0x04
  const TAG_SEQUENCE: byte := 0x30
  const TAG_APP_AS_REP: byte := 0x6B
  const TAG_APP_KRB_ERROR: byte := 0x7E
  const PA_ETYPE_INFO: int := 11
  const PA_ETYPE_INFO2: int := 19

  // ---- Encoders --------------------------------------------------------------------------

  /** The bytes of n with no leading zero; empty for 0. */
  function MinBE(n: nat): bytes {
    if n == 0 then [] else MinBE(n / 256) + [n % 256]
  }

  /** The shift loop shared by `_der_len` and `_der_int`. */
  method MinBytes(n: nat) returns (body: bytes)
    ensures body == MinBE(n)
  {
    body := [];
    var v := n;
    while v != 0
      invariant MinBE(v) + body == MinBE(n)
    {
      assert MinBE(v) + body == MinBE(v / 256) + ([v % 256] + body);
      body := [v % 256] + body;
      v := v / 256;
    }
    assert [] + body == body;
  }

  /** `_der_len`.  The length of the length goes into seven bits, so the form is meant for fewer than 128 bytes. */
  function DerLen(n: nat): bytes {
    if n < 128 then [n] else [128 + |MinBE(n)| % 128] + MinBE(n)
  }

  function Tlv(tag: byte, value: bytes): bytes {
    [tag] + DerLen(|value|) + value
  }

  function IntBody(n: nat): bytes {
    if n == 0 then [0] else if MinBE(n)[0] >= 128 then [0] + MinBE(n) else MinBE(n)
  }

  /** `_der_int`, for the non-negative integers its loop terminates on. */
  function DerInt(n: nat): bytes {
    Tlv(TAG_INTEGER, IntBody(n))
  }

  lemma {:induction false} MinBEValue(n: nat)
    ensures FromBE(MinBE(n)) == n
    ensures n > 0 ==> MinBE(n) != []
  {
    if n > 0 {
      MinBEValue(n / 256);
      assert (MinBE(n / 256) + [n % 256])[..|MinBE(n / 256)|] == MinBE(n / 256);
    }
  }

  lemma {:induction false} MinBEShort(n: nat, k: nat)
    requires n < Pow256(k)
    ensures |MinBE(n)| <= k
  {
    if n > 0 {
      MinBEShort(n / 256, k - 1);
    }
  }

  lemma {:induction false} FromBEZero(b: bytes)
    ensures FromBE([0] + b) == FromBE(b)
  {
    if b == [] {
      assert [0] + b == [0];
      assert FromBE([0][..0]) == 0;
    } else {
      FromBEZero(b[..|b| - 1]);
      assert ([0] + b)[..|b|] == [0] + b[..|b| - 1];
    }
  }

  // ---- Decoders --------------------------------------------------------------------------

  datatype Node = Node(tag: byte, value: bytes, next: nat)

  /** `_read_tlv`.  A long-form length whose bytes are cut off is read from what is left of them, as in the source. */
  function ReadTlv(data: bytes, off: nat): (r: Option<Node>)
    ensures r.Some? ==> r.value.next >= off + 2 && |r.value.value| <= |data|
  {
    if off + 1 >= |data| then None else
      var first: nat := data[off + 1];
      var num: nat := if first >= 128 then first - 128 else 0;
      var length := if first >= 128 then FromBE(Slice(data, off + 2, off + 2 + num)) else first;
      var value := Slice(data, off + 2 + num, off + 2 + num + length);
      if |value| != length then None else Some(Node(data[off], value, off + 2 + num + length))
  }

  /** `int.from_bytes(v, "big", signed=True)`. */
  function Signed(v: bytes): int {
    if v == [] || v[0] < 128 then FromBE(v) else FromBE(v) - Pow256(|v|)
  }

  function DecodeInt(b: bytes): Option<int> {
    var t := ReadTlv(b, 0);
    if t.None? then None else Some(Signed(t.value.value))
  }

  type Fields = map<int, bytes>

  function FieldsFrom(b: bytes, off: nat, m: Fields): Option<Fields>
    decreases if off < |b| then |b| - off else 0
  {
    if off >= |b| then Some(m) else
      var t := ReadTlv(b, off);
      if t.None? then None
      else FieldsFrom(b, t.value.next, WithField(m, t.value))
  }

  /** A context-specific, constructed tag [n] sets field n; other tags are skipped. */
  function WithField(m: Fields, t: Node): Fields {
    if 0xA0 <= t.tag <= 0xBF then m[t.tag - 0xA0 := t.value] else m
  }

  /** `_context_fields`. */
  method ContextFields(b: bytes) returns (r: Option<Fields>)
    ensures r == FieldsFrom(b, 0, map[])
  {
    var fields: Fields := map[];
    var off: nat := 0;
    while off < |b|
      invariant FieldsFrom(b, off, fields) == FieldsFrom(b, 0, map[])
      decreases if off < |b| then |b| - off else 0
    {
      var t := ReadTlv(b, off);
      if t.None? {
        return None;
      }
      fields := WithField(fields, t.value);
      off := t.value.next;
    }
    return Some(fields);
  }

  /** The etype of one ETYPE-INFO entry: [] without a field [0], None if a decoder raises. */
  function EntryEtype(entry: bytes): Option<seq<int>> {
    var f := FieldsFrom(entry, 0, map[]);
    if f.None? then None
    else if 0 !in f.value then Some([])
    else var n := DecodeInt(f.value[0]); if n.None? then None else Some([n.value])
  }

  function InfoFrom(body: bytes, off: nat, out: seq<int>): Option<seq<int>>
    decreases if off < |body| then |body| - off else 0
  {
    if off >= |body| then Some(out) else
      var t := ReadTlv(body, off);
      if t.None? then None else
        var e := EntryEtype(t.value.value);
        if e.None? then None else InfoFrom(body, t.value.next, out + e.value)
  }

  /** `_etypes_from_info`. */
  method EtypesFromInfo(info: bytes) returns (r: Option<seq<int>>)
    ensures r == Info(info)
  {
    var sequence := ReadTlv(info, 0);
    if sequence.None? {
      return None;
    }
    var body := sequence.value.value;
    var out: seq<int> := [];
    var off: nat := 0;
    while off < |body|
      invariant InfoFrom(body, off, out) == InfoFrom(body, 0, [])
      decreases if off < |body| then |body| - off else 0
    {
      var t := ReadTlv(body, off);
      if t.None? {
        return None;
      }
      var e := EntryEtype(t.value.value);
      if e.None? {
        return None;
      }
      out := out + e.value;
      off := t.value.next;
    }
    return Some(out);
  }

  function Info(info: bytes): Option<seq<int>> {
    var t := ReadTlv(info, 0);
    if t.None? then None else InfoFrom(t.value.value, 0, [])
  }

  /** The etypes one PA-DATA contributes. */
  function PaEtypes(pa: bytes): Option<seq<int>> {
    var f := FieldsFrom(pa, 0, map[]);
    if f.None? then None
    else if 1 !in f.value || 2 !in f.value then Some([])
    else
      var kind := DecodeInt(f.value[1]);
      if kind.None? then None
      else if kind.value != PA_ETYPE_INFO && kind.value != PA_ETYPE_INFO2 then Some([])
      else var o := ReadTlv(f.value[2], 0); if o.None? then None else Info(o.value.value)
  }

  function MethodFrom(body: bytes, off: nat, out: seq<int>): Option<seq<int>>
    decreases if off < |body| then |body| - off else 0
  {
    if off >= |body| then Some(out) else
      var t := ReadTlv(body, off);
      if t.None? then None else
        var e := PaEtypes(t.value.value);
        if e.None? then None else MethodFrom(body, t.value.next, out + e.value)
  }

  /** `_etypes_from_methoddata`. */
  method EtypesFromMethodData(der: bytes) returns (r: Option<seq<int>>)
    ensures r == MethodData(der)
  {
    var sequence := ReadTlv(der, 0);
    if sequence.None? {
      return None;
    }
    var body := sequence.value.value;
    var out: seq<int> := [];
    var off: nat := 0;
    while off < |body|
      invariant MethodFrom(body, off, out) == MethodFrom(body, 0, [])
      decreases if off < |body| then |body| - off else 0
    {
      var t := ReadTlv(body, off);
      if t.None? {
        return None;
      }
      var e := PaEtypes(t.value.value);
      if e.None? {
        return None;
      }
      out := out + e.value;
      off := t.value.next;
    }
    return Some(out);
  }

  function MethodData(der: bytes): Option<seq<int>> {
    var t := ReadTlv(der, 0);
    if t.None? then None else MethodFrom(t.value.value, 0, [])
  }

  // ---- Replies -------------------------------------------------------------------------------

  datatype Reply = Reply(msgType: Option<int>, etypes: seq<int>, errorCode: Option<int>)

  const BLANK := Reply(None, [], None)

  function KrbErrorReply(fields: Fields): Reply {
    var code := if 6 in fields then DecodeInt(fields[6]) else None;
    if 6 in fields && code.None? then Reply(Some(30), [], None)
    else if 12 !in fields then Reply(Some(30), [], code)
    else
      var edata := ReadTlv(fields[12], 0);
      if edata.None? then Reply(Some(30), [], code)
      else
        var etypes := MethodData(edata.value.value);
        Reply(Some(30), if etypes.None? then [] else Dedupe(etypes.value), code)
  }

  /** The etype of an EncryptedData, as a list. */
  function EncPartEtype(enc: bytes): Option<seq<int>> {
    var t := ReadTlv(enc, 0);
    if t.None? then None else EntryEtype(t.value.value)
  }

  function AsRepReply(fields: Fields): Reply {
    var padata := if 2 in fields then MethodData(fields[2]) else Some([]);
    if padata.None? then Reply(Some(11), [], None)
    else
      var enc := if 6 in fields then EncPartEtype(fields[6]) else Some([]);
      Reply(Some(11), if enc.None? then [] else Dedupe(padata.value + enc.value), None)
  }

  /** `parse_kdc_reply`: defined on every byte string, so it neither raises nor loops. */
  function ParseKdcReply(data: bytes): Reply {
    var t := ReadTlv(data, 0);
    if t.None? then BLANK else
      var s := ReadTlv(t.value.value, 0);
      if s.None? then BLANK else
        var fields := FieldsFrom(s.value.value, 0, map[]);
        if fields.None? then BLANK
        else if t.value.tag == TAG_APP_KRB_ERROR then KrbErrorReply(fields.value)
        else if t.value.tag == TAG_APP_AS_REP then AsRepReply(fields.value)
        else BLANK
  }

  // ---- Round trips -----------------------------------------------------------------------------

  /** Short enough for a definite length: the length takes at most k bytes, and k fits seven bits. */
  ghost predicate Short(b: bytes, k: nat) {
    k < 128 && |b| < Pow256(k)
  }

  lemma LongForm(data: bytes, off: nat, body: bytes)
    requires |body| < 128 && At(data, off, [128 + |body| % 128] + body)
    ensures data[off] == 128 + |body| && Slice(data, off + 1, off + 1 + |body|) == body
  {
    AtConcat(data, off, [128 + |body| % 128], body);
    AtIndex(data, off, [128 + |body| % 128], 0);
    AtSlice(data, off + 1, body);
  }

  function LengthAt(data: bytes, off: nat): nat
    requires off < |data|
  {
    var first: nat := data[off];
    if first >= 128 then FromBE(Slice(data, off + 1, off + 1 + (first - 128))) else first
  }

  function ExtraAt(data: bytes, off: nat): nat
    requires off < |data|
  {
    var first: nat := data[off];
    if first >= 128 then first - 128 else 0
  }

  lemma LongLengthRead(data: bytes, off: nat, n: nat, body: bytes)
    requires |body| < 128 && FromBE(body) == n && At(data, off, [128 + |body| % 128] + body)
    ensures LengthAt(data, off) == n && ExtraAt(data, off) == |body|
  {
    LongForm(data, off, body);
  }

  lemma LengthBody(n: nat, k: nat) returns (body: bytes)
    requires n >= 128 && k < 128 && n < Pow256(k)
    ensures DerLen(n) == [128 + |body| % 128] + body && |body| < 128 && FromBE(body) == n
  {
    body := MinBE(n);
    MinBEShort(n, k);
    MinBEValue(n);
  }

  lemma LengthRead(data: bytes, off: nat, n: nat, k: nat)
    requires k < 128 && n < Pow256(k) && At(data, off, DerLen(n))
    ensures LengthAt(data, off) == n && |DerLen(n)| == 1 + ExtraAt(data, off)
  {
    if n < 128 {
      AtIndex(data, off, [n], 0);
    } else {
      var body := LengthBody(n, k);
      LongLengthRead(data, off, n, body);
    }
  }

  lemma TlvLayout(data: bytes, off: nat, tag: byte, n: bytes, value: bytes)
    requires At(data, off, [tag] + n + value)
    ensures data[off] == tag && At(data, off + 1, n) && Slice(data, off + 1 + |n|, off + 1 + |n| + |value|) == value
  {
    AtConcat(data, off, [tag] + n, value);
    AtConcat(data, off, [tag], n);
    AtIndex(data, off, [tag], 0);
    AtSlice(data, off + 1 + |n|, value);
  }

  lemma ReadKnown(data: bytes, off: nat, n: nat, extra: nat, value: bytes)
    requires off + 1 < |data| && LengthAt(data, off + 1) == n && ExtraAt(data, off + 1) == extra
    requires Slice(data, off + 2 + extra, off + 2 + extra + n) == value && |value| == n
    ensures ReadTlv(data, off) == Some(Node(data[off], value, off + 2 + extra + n))
  {
    hide FromBE, Slice;
  }

  /** Reading inverts encoding, wherever the TLV stands and whatever follows it. */
  lemma TlvRoundTrip(data: bytes, off: nat, tag: byte, value: bytes, k: nat)
    requires Short(value, k) && At(data, off, Tlv(tag, value))
    ensures ReadTlv(data, off) == Some(Node(tag, value, off + |Tlv(tag, value)|))
  {
    hide At, LengthAt, ExtraAt, ReadTlv, DerLen;
    var n := DerLen(|value|);
    TlvLayout(data, off, tag, n, value);
    LengthRead(data, off + 1, |value|, k);
    ReadKnown(data, off, |value|, |n| - 1, value);
  }

  /** A definite length: below 128 in one byte, or any number of bytes announced by the first. */
  ghost predicate IsLength(l: bytes, n: nat) {
    || (n < 128 && l == [n])
    || exists body: bytes :: |body| < 128 && l == [128 + |body|] + body && FromBE(body) == n
  }

  /** A TLV with this tag and value, ending at `next`, stands at off. */
  ghost predicate TlvAt(data: bytes, off: nat, tag: byte, value: bytes, next: nat) {
    exists l :: TlvWith(data, off, tag, l, value, next)
  }

  ghost predicate TlvWith(data: bytes, off: nat, tag: byte, l: bytes, value: bytes, next: nat) {
    IsLength(l, |value|) && At(data, off, [tag] + l + value) && next == off + 1 + |l| + |value|
  }

  /** The data end within the length, of which only zeros are there. */
  ghost predicate CutInLength(data: bytes, off: nat, tag: byte, value: bytes, next: nat) {
    && off + 2 <= |data| && data[off] == tag && data[off + 1] >= 128 && value == []
    && next == off + 2 + (data[off + 1] - 128) && next > |data|
    && FromBE(data[off + 2..]) == 0
  }

  lemma TlvAtReads(data: bytes, off: nat, tag: byte, value: bytes, next: nat)
    requires TlvAt(data, off, tag, value, next)
    ensures ReadTlv(data, off) == Some(Node(tag, value, next))
  {
    hide At, ReadTlv, LengthAt, ExtraAt, IsLength, FromBE, Slice;
    var l :| TlvWith(data, off, tag, l, value, next);
    TlvLayout(data, off, tag, l, value);
    LengthIsRead(data, off + 1, l, |value|);
    ReadKnown(data, off, |value|, |l| - 1, value);
  }

  lemma LengthIsRead(data: bytes, off: nat, l: bytes, n: nat)
    requires IsLength(l, n) && At(data, off, l)
    ensures off < |data| && LengthAt(data, off) == n && |l| == 1 + ExtraAt(data, off)
  {
    if n < 128 && l == [n] {
      AtIndex(data, off, [n], 0);
    } else {
      var body: bytes :| |body| < 128 && l == [128 + |body|] + body && FromBE(body) == n;
      LongLengthRead(data, off, n, body);
    }
  }

  lemma PiecesAt(data: bytes, off: nat, tag: byte, l: bytes, value: bytes)
    requires off + 1 + |l| + |value| <= |data| && data[off] == tag && data[off + 1..off + 1 + |l|] == l
    requires data[off + 1 + |l|..off + 1 + |l| + |value|] == value
    ensures At(data, off, [tag] + l + value)
  {
    assert data[off..off + 1 + |l|] == [tag] + l;
    assert data[off..off + 1 + |l| + |value|] == data[off..off + 1 + |l|] + value;
  }

  lemma SliceWhole(data: bytes, lo: nat, hi: nat)
    requires lo <= hi && |Slice(data, lo, hi)| == hi - lo
    ensures hi == lo || hi <= |data|
    ensures hi <= |data| ==> Slice(data, lo, hi) == data[lo..hi]
  {
  }

  lemma ShortIsTlvAt(data: bytes, off: nat)
    requires ReadTlv(data, off).Some? && data[off + 1] < 128
    ensures var t := ReadTlv(data, off).value; TlvAt(data, off, t.tag, t.value, t.next)
  {
    hide At, FromBE;
    var t, first := ReadTlv(data, off).value, data[off + 1];
    SliceWhole(data, off + 2, off + 2 + first);
    PiecesAt(data, off, t.tag, [first], t.value);
    assert TlvWith(data, off, t.tag, [first], t.value, t.next);
  }

  lemma LongIsTlvAt(data: bytes, off: nat)
    requires ReadTlv(data, off).Some? && data[off + 1] >= 128 && off + 2 + (data[off + 1] - 128) <= |data|
    ensures var t := ReadTlv(data, off).value; TlvAt(data, off, t.tag, t.value, t.next)
  {
    hide At, FromBE;
    var t, num := ReadTlv(data, off).value, data[off + 1] - 128;
    var body := data[off + 2..off + 2 + num];
    var l: bytes := [128 + |body|] + body;
    LongValue(data, off, num, body);
    assert data[off + 1..off + 2 + num] == l;
    PiecesAt(data, off, t.tag, l, t.value);
    assert TlvWith(data, off, t.tag, l, t.value, t.next);
  }

  lemma LongValue(data: bytes, off: nat, num: nat, body: bytes)
    requires ReadTlv(data, off).Some? && data[off + 1] == 128 + num && off + 2 + num <= |data|
    requires body == data[off + 2..off + 2 + num]
    ensures var t, n := ReadTlv(data, off).value, FromBE(body);
      && |t.value| == n && t.tag == data[off] && t.next == off + 2 + num + n
      && off + 2 + num + n <= |data| && t.value == data[off + 2 + num..off + 2 + num + n]
  {
    hide FromBE;
    SliceWhole(data, off + 2, off + 2 + num);
    assert Slice(data, off + 2, off + 2 + num) == body;
    SliceWhole(data, off + 2 + num, off + 2 + num + FromBE(body));
  }

  lemma CutIsRead(data: bytes, off: nat)
    requires ReadTlv(data, off).Some? && data[off + 1] >= 128 && off + 2 + (data[off + 1] - 128) > |data|
    ensures var t := ReadTlv(data, off).value; CutInLength(data, off, t.tag, t.value, t.next)
  {
    hide FromBE;
    assert Slice(data, off + 2, off + 2 + (data[off + 1] - 128)) == data[off + 2..];
  }

  /** `_read_tlv` reads exactly the TLVs, minimal length or not, and besides takes a length that the end of the data
      cuts off for an empty value when only zeros of it are there. */
  lemma ReadTlvIff(data: bytes, off: nat, tag: byte, value: bytes, next: nat)
    ensures ReadTlv(data, off) == Some(Node(tag, value, next)) <==>
      TlvAt(data, off, tag, value, next) || CutInLength(data, off, tag, value, next)
  {
    hide ReadTlv, TlvAt, CutInLength;
    if ReadTlv(data, off).Some? {
      ReadInside(data, off);
      if data[off + 1] < 128 {
        ShortIsTlvAt(data, off);
      } else if off + 2 + (data[off + 1] - 128) <= |data| {
        LongIsTlvAt(data, off);
      } else {
        CutIsRead(data, off);
      }
    }
    if TlvAt(data, off, tag, value, next) { TlvAtReads(data, off, tag, value, next); }
    if CutInLength(data, off, tag, value, next) { CutReads(data, off, tag, value, next); }
  }

  lemma ReadInside(data: bytes, off: nat)
    requires ReadTlv(data, off).Some?
    ensures off + 1 < |data|
  {
  }

  lemma CutReads(data: bytes, off: nat, tag: byte, value: bytes, next: nat)
    requires CutInLength(data, off, tag, value, next)
    ensures ReadTlv(data, off) == Some(Node(tag, value, next))
  {
    assert Slice(data, off + 2, next) == data[off + 2..];
  }

  /** Such a buffer: one length byte announced, none there. */
  lemma TruncatedIsAccepted(tag: byte)
    ensures ReadTlv([tag, 0x81], 0) == Some(Node(tag, [], 3))
  {
    assert Slice([tag, 0x81], 2, 3) == [] && FromBE([]) == 0;
  }

  lemma TlvAlone(tag: byte, value: bytes, k: nat)
    requires Short(value, k)
    ensures ReadTlv(Tlv(tag, value), 0) == Some(Node(tag, value, |Tlv(tag, value)|))
    ensures |value| + 2 <= |Tlv(tag, value)|
  {
    TlvRoundTrip(Tlv(tag, value), 0, tag, value, k);
  }

  /** `_decode_int` inverts `_der_int` on every non-negative integer. */
  lemma IntRoundTrip(n: nat, k: nat)
    requires Short(IntBody(n), k)
    ensures DecodeInt(DerInt(n)) == Some(n)
  {
    TlvAlone(TAG_INTEGER, IntBody(n), k);
    MinBEValue(n);
    FromBEZero(MinBE(n));
    if n == 0 {
      assert FromBE([0][..0]) == 0;
    }
  }

  /** What `_der_int` emits is the shortest form whose first bit is the sign. */
  lemma DerIntIsMinimal(n: nat)
    ensures DerInt(n) == [0x02] + DerLen(|IntBody(n)|) + IntBody(n)
    ensures FromBE(IntBody(n)) == n && IntBody(n) != [] && IntBody(n)[0] < 128
    ensures |IntBody(n)| > 1 && IntBody(n)[0] == 0 ==> IntBody(n)[1] >= 128
  {
    MinBEValue(n);
    FromBEZero(MinBE(n));
    if n == 0 {
      assert FromBE([0][..0]) == 0;
    } else {
      MinBEHead(n);
    }
  }

  lemma {:induction false} MinBEHead(n: nat)
    requires n > 0
    ensures MinBE(n) != [] && MinBE(n)[0] > 0
  {
    if n >= 256 {
      MinBEHead(n / 256);
    } else {
      assert MinBE(n / 256) == [];
    }
  }

  function Half(j: nat): int
    requires j >= 1
  {
    128 * Pow256(j - 1)
  }

  /** n in j bytes of two's complement. */
  function Twos(n: int, j: nat): bytes
    requires j >= 1 && -Half(j) <= n < Half(j)
  {
    ToBE(if n < 0 then n + Pow256(j) else n, j)
  }

  /** b is an INTEGER of value n, in any width that holds it. */
  ghost predicate IsInt(b: bytes, n: int) {
    exists j: nat :: j >= 1 && -Half(j) <= n < Half(j) && b == Tlv(0x02, Twos(n, j))
  }

  lemma TwosSigned(n: int, j: nat)
    requires j >= 1 && -Half(j) <= n < Half(j)
    ensures Signed(Twos(n, j)) == n && |Twos(n, j)| == j
  {
    var u: nat := if n < 0 then n + Pow256(j) else n;
    FromToBE(u, j);
    if n < 0 { ToBEHeadAtLeast(u, j, 128); } else { ToBEHead(u, j, 128); }
  }

  /** `_der_int` emits such an INTEGER. */
  lemma DerIntIsInt(n: nat)
    ensures IsInt(DerInt(n), n)
  {
    var b := IntBody(n);
    DerIntIsMinimal(n);
    FromBEBound(b);
    ToFromBE(b);
    if n >= Half(|b|) { ToBEHeadAtLeast(n, |b|, 128); }
    assert Twos(n, |b|) == b;
  }

  /** `_decode_int` reads every INTEGER, negative ones and longer forms included. */
  lemma IntRead(b: bytes, n: int, k: nat)
    requires IsInt(b, n) && Short(b, k)
    ensures DecodeInt(b) == Some(n)
  {
    hide Signed;
    var j: nat :| j >= 1 && -Half(j) <= n < Half(j) && b == Tlv(0x02, Twos(n, j));
    TwosSigned(n, j);
    TlvAlone(0x02, Twos(n, j), k);
  }

  /** A TLV of a SEQUENCE body; a tag from 0xA0 to 0xBF makes it a context field. */
  datatype Field = Field(tag: byte, value: bytes)

  /** [n] value. */
  function Ctx(n: nat, value: bytes): Field
    requires n < 32
  {
    Field(0xA0 + n, value)
  }

  function EncodeFields(fs: seq<Field>): bytes {
    if fs == [] then [] else Tlv(fs[0].tag, fs[0].value) + EncodeFields(fs[1..])
  }

  predicate HasNumber(f: Field) {
    160 <= f.tag < 192
  }

  /** The dictionary a field list denotes: a later field replaces an earlier one with its number. */
  function FieldMap(fs: seq<Field>, m: Fields): Fields {
    if fs == [] then m else FieldMap(fs[1..], if HasNumber(fs[0]) then m[fs[0].tag - 160 := fs[0].value] else m)
  }

  /** One TLV followed by the rest of a body that ends with it. */
  lemma TlvThen(b: bytes, off: nat, tag: byte, value: bytes, rest: bytes, k: nat) returns (next: nat)
    requires Short(b, k) && At(b, off, Tlv(tag, value) + rest) && off + |Tlv(tag, value) + rest| == |b|
    ensures ReadTlv(b, off) == Some(Node(tag, value, next))
    ensures At(b, next, rest) && next + |rest| == |b| && off < |b|
  {
    hide ReadTlv, DerLen, FromBE;
    AtConcat(b, off, Tlv(tag, value), rest);
    TlvRoundTrip(b, off, tag, value, k);
    next := off + |Tlv(tag, value)|;
  }

  function OneField(m: Fields, f: Field): Fields {
    if HasNumber(f) then m[f.tag - 160 := f.value] else m
  }

  lemma {:induction false} FieldsRead(b: bytes, off: nat, fs: seq<Field>, m: Fields, k: nat)
    requires Short(b, k) && At(b, off, EncodeFields(fs)) && off + |EncodeFields(fs)| == |b|
    ensures FieldsFrom(b, off, m) == Some(FieldMap(fs, m))
    decreases |fs|
  {
    if fs != [] {
      var next := TlvThen(b, off, fs[0].tag, fs[0].value, EncodeFields(fs[1..]), k);
      FieldsRead(b, next, fs[1..], OneField(m, fs[0]), k);
    }
  }

  /** With distinct tags, `_context_fields` recovers each context field ... */
  lemma {:induction false} DistinctFieldsRecovered(fs: seq<Field>, m: Fields)
    requires forall i, j :: 0 <= i < j < |fs| ==> fs[i].tag != fs[j].tag
    requires forall i :: 0 <= i < |fs| ==> fs[i].tag - 160 !in m
    ensures forall i :: 0 <= i < |fs| && 160 <= fs[i].tag < 192 ==>
      fs[i].tag - 160 in FieldMap(fs, m) && FieldMap(fs, m)[fs[i].tag - 160] == fs[i].value
    ensures forall k :: k in m ==> k in FieldMap(fs, m) && FieldMap(fs, m)[k] == m[k]
  {
    if fs != [] {
      DistinctFieldsRecovered(fs[1..], OneField(m, fs[0]));
      forall i | 0 <= i < |fs| && HasNumber(fs[i])
        ensures fs[i].tag - 160 in FieldMap(fs, m) && FieldMap(fs, m)[fs[i].tag - 160] == fs[i].value
      {
        if i > 0 { assert fs[i] == fs[1..][i - 1]; }
      }
    }
  }

  /** ... and nothing else. */
  lemma {:induction false} OnlyFieldsRecovered(fs: seq<Field>, m: Fields, k: int)
    requires k in FieldMap(fs, m) && k !in m
    ensures 0 <= k < 32 && exists i :: 0 <= i < |fs| && fs[i].tag == 160 + k && fs[i].value == FieldMap(fs, m)[k]
  {
    if fs != [] {
      var m' := OneField(m, fs[0]);
      if k in m' {
        LastOrLater(fs[1..], m', k);
      } else {
        OnlyFieldsRecovered(fs[1..], m', k);
      }
      assert forall i :: 0 <= i < |fs[1..]| ==> fs[1..][i] == fs[i + 1];
    }
  }

  lemma {:induction false} LastOrLater(fs: seq<Field>, m: Fields, k: int)
    requires k in m
    ensures k in FieldMap(fs, m)
    ensures FieldMap(fs, m)[k] == m[k]
      || exists i :: 0 <= i < |fs| && fs[i].tag == 160 + k && fs[i].value == FieldMap(fs, m)[k]
  {
    if fs != [] {
      LastOrLater(fs[1..], OneField(m, fs[0]), k);
      assert forall i :: 0 <= i < |fs[1..]| ==> fs[1..][i] == fs[i + 1];
    }
  }

  lemma FieldsAlone(fs: seq<Field>, k: nat)
    requires Short(EncodeFields(fs), k)
    ensures FieldsFrom(EncodeFields(fs), 0, map[]) == Some(FieldMap(fs, map[]))
  {
    FieldsRead(EncodeFields(fs), 0, fs, map[], k);
  }

  // ---- A KDC reply built from the encoders -------------------------------------------------------

  /** An ETYPE-INFO(2) entry: any fields, of which [0], if it is there, is the etype. */
  datatype Entry = Entry(etype: Option<int>, fields: seq<Field>)

  ghost predicate EntryOk(e: Entry) {
    var m := FieldMap(e.fields, map[]);
    (0 in m <==> e.etype.Some?) && (0 in m ==> IsInt(m[0], e.etype.value))
  }

  function Offer(e: Entry): seq<int> {
    if e.etype.Some? then [e.etype.value] else []
  }

  function EncodeEntry(e: Entry): bytes {
    Tlv(TAG_SEQUENCE, EncodeFields(e.fields))
  }

  ghost predicate EntriesOk(es: seq<Entry>) {
    forall i :: 0 <= i < |es| ==> EntryOk(es[i])
  }

  function EncodeEntries(es: seq<Entry>): bytes {
    if es == [] then [] else EncodeEntry(es[0]) + EncodeEntries(es[1..])
  }

  function Etypes(es: seq<Entry>): seq<int> {
    if es == [] then [] else Offer(es[0]) + Etypes(es[1..])
  }

  lemma {:induction false} FieldFits(fs: seq<Field>, k: int)
    requires k in FieldMap(fs, map[])
    ensures |FieldMap(fs, map[])[k]| <= |EncodeFields(fs)|
  {
    OnlyFieldsRecovered(fs, map[], k);
    var i :| 0 <= i < |fs| && fs[i].tag == 160 + k && fs[i].value == FieldMap(fs, map[])[k];
    ValueFits(fs, i);
  }

  lemma {:induction false} ValueFits(fs: seq<Field>, i: nat)
    requires i < |fs|
    ensures |fs[i].value| <= |EncodeFields(fs)|
  {
    if i > 0 { ValueFits(fs[1..], i - 1); }
  }

  lemma ShorterInt(n: nat, b: bytes, k: nat)
    requires Short(b, k) && |DerInt(n)| <= |b|
    ensures Short(IntBody(n), k)
  {
  }

  lemma Shorter(a: bytes, b: bytes, k: nat)
    requires Short(b, k) && |a| <= |b|
    ensures Short(a, k)
  {
  }

  lemma EntryRead(e: Entry, k: nat)
    requires EntryOk(e) && Short(EncodeFields(e.fields), k)
    ensures EntryEtype(EncodeFields(e.fields)) == Some(Offer(e))
  {
    hide IsInt, DecodeInt;
    var m := FieldMap(e.fields, map[]);
    FieldsAlone(e.fields, k);
    if 0 in m {
      FieldFits(e.fields, 0);
      Shorter(m[0], EncodeFields(e.fields), k);
      IntRead(m[0], e.etype.value, k);
    }
  }

  lemma {:induction false} EntriesRead(b: bytes, off: nat, es: seq<Entry>, out: seq<int>, k: nat)
    requires EntriesOk(es) && Short(b, k) && At(b, off, EncodeEntries(es)) && off + |EncodeEntries(es)| == |b|
    ensures InfoFrom(b, off, out) == Some(out + Etypes(es))
    decreases |es|
  {
    hide At, EntryEtype, EncodeFields, ReadTlv;
    if es == [] {
      assert out + [] == out;
    } else {
      var e, v := es[0], EncodeFields(es[0].fields);
      assert EntryOk(e);
      var next := TlvThen(b, off, TAG_SEQUENCE, v, EncodeEntries(es[1..]), k);
      EntryRead(e, k);
      EntriesRead(b, next, es[1..], out + Offer(e), k);
      assert out + (Offer(e) + Etypes(es[1..])) == (out + Offer(e)) + Etypes(es[1..]);
    }
  }

  /** A PA-DATA: an ETYPE-INFO or ETYPE-INFO2 list, or any other kind with any value. */
  datatype Pa = EtypeInfo(second: bool, entries: seq<Entry>) | OtherPa(kind: nat, value: bytes)

  ghost predicate PaOk(p: Pa) {
    match p
    case EtypeInfo(_, entries) => EntriesOk(entries)
    case OtherPa(kind, _) => kind != PA_ETYPE_INFO && kind != PA_ETYPE_INFO2
  }

  function PaKind(p: Pa): nat {
    match p
    case EtypeInfo(second, _) => if second then 19 else 11
    case OtherPa(kind, _) => kind
  }

  function PaValue(p: Pa): bytes {
    match p
    case EtypeInfo(_, entries) => Tlv(TAG_OCTET_STRING, Tlv(TAG_SEQUENCE, EncodeEntries(entries)))
    case OtherPa(_, value) => value
  }

  function PaFields(p: Pa): seq<Field> {
    [Ctx(1, DerInt(PaKind(p))), Ctx(2, PaValue(p))]
  }

  function PaResult(p: Pa): seq<int> {
    if p.EtypeInfo? then Etypes(p.entries) else []
  }

  lemma TwoFields(a: Field, b: Field)
    requires 160 <= a.tag < b.tag < 192
    ensures FieldMap([a, b], map[]) == map[a.tag - 160 := a.value, b.tag - 160 := b.value]
    ensures |a.value| <= |EncodeFields([a, b])| && |b.value| <= |EncodeFields([a, b])|
  {
    assert [a, b][1..] == [b] && [b][1..] == [];
    assert FieldMap([a, b], map[]) == FieldMap([b], map[a.tag - 160 := a.value]);
    assert FieldMap([b], map[a.tag - 160 := a.value])
        == FieldMap([], map[a.tag - 160 := a.value][b.tag - 160 := b.value]);
    ValueFits([a, b], 0);
    ValueFits([a, b], 1);
  }

  lemma InfoRead(es: seq<Entry>, b: bytes, k: nat)
    requires EntriesOk(es) && Short(b, k) && |Tlv(TAG_SEQUENCE, EncodeEntries(es))| <= |b|
    ensures Info(Tlv(TAG_SEQUENCE, EncodeEntries(es))) == Some(Etypes(es))
  {
    var body := EncodeEntries(es);
    TlvAlone(TAG_SEQUENCE, body, k);
    EntriesRead(body, 0, es, [], k);
    assert [] + Etypes(es) == Etypes(es);
  }

  lemma PaRead(p: Pa, k: nat)
    requires PaOk(p) && Short(EncodeFields(PaFields(p)), k)
    ensures PaEtypes(EncodeFields(PaFields(p))) == Some(PaResult(p))
  {
    hide ReadTlv, DerInt, EncodeEntries, EncodeFields, FieldMap, FieldsFrom, Info, DecodeInt;
    var fs := PaFields(p);
    var b := EncodeFields(fs);
    FieldsAlone(fs, k);
    TwoFields(fs[0], fs[1]);
    ShorterInt(PaKind(p), b, k);
    IntRoundTrip(PaKind(p), k);
    if p.EtypeInfo? {
      var inner := Tlv(TAG_SEQUENCE, EncodeEntries(p.entries));
      TlvAlone(TAG_OCTET_STRING, inner, k);
      InfoRead(p.entries, b, k);
    }
  }

  ghost predicate PasOk(ps: seq<Pa>) {
    forall i :: 0 <= i < |ps| ==> PaOk(ps[i])
  }

  function EncodePas(ps: seq<Pa>): bytes {
    if ps == [] then [] else Tlv(TAG_SEQUENCE, EncodeFields(PaFields(ps[0]))) + EncodePas(ps[1..])
  }

  function PasResult(ps: seq<Pa>): seq<int> {
    if ps == [] then [] else PaResult(ps[0]) + PasResult(ps[1..])
  }

  lemma PasStep(b: bytes, off: nat, ps: seq<Pa>, k: nat) returns (t: Node)
    requires PasOk(ps) && Short(b, k) && At(b, off, EncodePas(ps)) && off + |EncodePas(ps)| == |b|
    requires ps != []
    ensures PasOk(ps[1..])
    ensures off < |b| && ReadTlv(b, off) == Some(t) && PaEtypes(t.value) == Some(PaResult(ps[0]))
    ensures At(b, t.next, EncodePas(ps[1..])) && t.next + |EncodePas(ps[1..])| == |b|
  {
    assert PaOk(ps[0]);
    var v := EncodeFields(PaFields(ps[0]));
    var next := TlvThen(b, off, TAG_SEQUENCE, v, EncodePas(ps[1..]), k);
    t := Node(TAG_SEQUENCE, v, next);
    PaRead(ps[0], k);
  }

  lemma MethodStep(b: bytes, off: nat, out: seq<int>, t: Node, e: seq<int>)
    requires off < |b| && ReadTlv(b, off) == Some(t) && PaEtypes(t.value) == Some(e)
    ensures MethodFrom(b, off, out) == MethodFrom(b, t.next, out + e)
  {
  }

  lemma PasResultStep(ps: seq<Pa>, out: seq<int>)
    requires ps != []
    ensures out + PasResult(ps) == (out + PaResult(ps[0])) + PasResult(ps[1..])
  {
  }

  lemma {:induction false} PasRead(b: bytes, off: nat, ps: seq<Pa>, out: seq<int>, k: nat)
    requires PasOk(ps) && Short(b, k) && At(b, off, EncodePas(ps)) && off + |EncodePas(ps)| == |b|
    ensures MethodFrom(b, off, out) == Some(out + PasResult(ps))
    decreases |ps|
  {
    if ps == [] {
      assert out + [] == out;
    } else {
      var t := PasStep(b, off, ps, k);
      MethodStep(b, off, out, t, PaResult(ps[0]));
      PasRead(b, t.next, ps[1..], out + PaResult(ps[0]), k);
      PasResultStep(ps, out);
    }
  }

  /** METHOD-DATA. */
  function EncodeMethodData(ps: seq<Pa>): bytes {
    Tlv(TAG_SEQUENCE, EncodePas(ps))
  }

  lemma MethodDataRead(ps: seq<Pa>, k: nat)
    requires PasOk(ps) && Short(EncodeMethodData(ps), k)
    ensures MethodData(EncodeMethodData(ps)) == Some(PasResult(ps))
  {
    TlvAlone(TAG_SEQUENCE, EncodePas(ps), k);
    PasRead(EncodePas(ps), 0, ps, [], k);
    assert [] + PasResult(ps) == PasResult(ps);
  }

  function EncodeReply(tag: byte, fs: seq<Field>): bytes {
    Tlv(tag, Tlv(TAG_SEQUENCE, EncodeFields(fs)))
  }

  lemma ReplyFields(tag: byte, fs: seq<Field>, k: nat)
    requires Short(EncodeReply(tag, fs), k)
    ensures var d := EncodeReply(tag, fs); var t := ReadTlv(d, 0);
      && t.Some? && t.value.tag == tag
      && ReadTlv(t.value.value, 0).Some?
      && FieldsFrom(ReadTlv(t.value.value, 0).value.value, 0, map[]) == Some(FieldMap(fs, map[]))
  {
    var body := EncodeFields(fs);
    TlvAlone(TAG_SEQUENCE, body, k);
    TlvAlone(tag, Tlv(TAG_SEQUENCE, body), k);
    FieldsAlone(fs, k);
  }

  /** A KRB-ERROR, with or without an error code and METHOD-DATA in its e-data, among any other fields, parses to the
      code it has and the first-occurrence dedupe of the etypes it offers. */
  lemma KrbErrorRoundTrip(fs: seq<Field>, code: int, ps: seq<Pa>, k: nat)
    requires PasOk(ps) && Short(EncodeReply(0x7E, fs), k)
    requires var m := FieldMap(fs, map[]);
      && (6 in m ==> IsInt(m[6], code))
      && (12 in m ==> m[12] == Tlv(0x04, EncodeMethodData(ps)))
    ensures var m := FieldMap(fs, map[]);
      ParseKdcReply(EncodeReply(0x7E, fs)) ==
        Reply(Some(30), if 12 in m then Dedupe(PasResult(ps)) else [], if 6 in m then Some(code) else None)
  {
    hide IsInt, DecodeInt;
    var m := FieldMap(fs, map[]);
    ReplyFields(TAG_APP_KRB_ERROR, fs, k);
    if 6 in m {
      FieldFits(fs, 6);
      Shorter(m[6], EncodeFields(fs), k);
      IntRead(m[6], code, k);
    }
    if 12 in m {
      FieldFits(fs, 12);
      TlvAlone(TAG_OCTET_STRING, EncodeMethodData(ps), k);
      MethodDataRead(ps, k);
    }
  }

  /** An e-data that cannot be read costs the etypes, not the error code. */
  lemma BrokenEdata(fs: seq<Field>, code: int, k: nat)
    requires Short(EncodeReply(0x7E, fs), k)
    requires var m := FieldMap(fs, map[]);
      && 6 in m && IsInt(m[6], code)
      && 12 in m && (ReadTlv(m[12], 0).None? || MethodData(ReadTlv(m[12], 0).value.value).None?)
    ensures ParseKdcReply(EncodeReply(0x7E, fs)) == Reply(Some(30), [], Some(code))
  {
    ReplyFields(TAG_APP_KRB_ERROR, fs, k);
    FieldFits(fs, 6);
    var m := FieldMap(fs, map[]);
    Shorter(m[6], EncodeFields(fs), k);
    IntRead(m[6], code, k);
  }

  /** An error code that cannot be read costs both. */
  lemma BrokenCode(fs: seq<Field>, k: nat)
    requires Short(EncodeReply(0x7E, fs), k)
    requires var m := FieldMap(fs, map[]); 6 in m && ReadTlv(m[6], 0).None?
    ensures ParseKdcReply(EncodeReply(0x7E, fs)) == Reply(Some(30), [], None)
  {
    ReplyFields(TAG_APP_KRB_ERROR, fs, k);
  }

  /** So does, in an AS-REP, a padata or an enc-part. */
  lemma BrokenAsRep(fs: seq<Field>, k: nat)
    requires Short(EncodeReply(0x6B, fs), k)
    requires var m := FieldMap(fs, map[]);
      (2 in m && MethodData(m[2]).None?) || (6 in m && EncPartEtype(m[6]).None?)
    ensures ParseKdcReply(EncodeReply(0x6B, fs)) == Reply(Some(11), [], None)
  {
    ReplyFields(TAG_APP_AS_REP, fs, k);
  }

  /** An AS-REP parses to the etypes of its padata, if it has any, followed by the one it was encrypted with,
      deduped. */
  lemma AsRepRoundTrip(fs: seq<Field>, ps: seq<Pa>, enc: Entry, k: nat)
    requires PasOk(ps) && EntryOk(enc) && Short(EncodeReply(0x6B, fs), k)
    requires var m := FieldMap(fs, map[]);
      (2 in m ==> m[2] == EncodeMethodData(ps)) && (6 in m ==> m[6] == EncodeEntry(enc))
    ensures var m := FieldMap(fs, map[]);
      var etypes := (if 2 in m then PasResult(ps) else []) + (if 6 in m then Offer(enc) else []);
      ParseKdcReply(EncodeReply(0x6B, fs)) == Reply(Some(11), Dedupe(etypes), None)
  {
    var m := FieldMap(fs, map[]);
    ReplyFields(TAG_APP_AS_REP, fs, k);
    if 2 in m {
      FieldFits(fs, 2);
      MethodDataRead(ps, k);
    }
    if 6 in m {
      FieldFits(fs, 6);
      TlvAlone(TAG_SEQUENCE, EncodeFields(enc.fields), k);
      EntryRead(enc, k);
    }
  }

  /** Any other message leaves all defaults. */
  lemma OtherMessageIsBlank(tag: byte, fs: seq<Field>, k: nat)
    requires tag != 0x7E && tag != 0x6B && Short(EncodeReply(tag, fs), k)
    ensures ParseKdcReply(EncodeReply(tag, fs)) == Reply(None, [], None)
  {
    ReplyFields(tag, fs, k);
  }
}
