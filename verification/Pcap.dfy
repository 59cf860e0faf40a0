/**
  The classic-pcap reader of probes/_pcap.py, against the record layout it reads, in either byte order.
  */
module Pcap {
  import opened Common
  import opened Bytes

  // ---- Classic pcap ----------------------------------------------------------------------

  function Reverse(b: bytes): (r: bytes)
    ensures |r| == |b|
  {
    if b == [] then [] else Reverse(b[1..]) + [b[0]]
  }

  lemma {:induction false} ReverseSnoc(b: bytes, x: byte)
    ensures Reverse(b + [x]) == [x] + Reverse(b)
  {
    if b == [] {
      assert b + [x] == [x];
    } else {
      assert (b + [x])[1..] == b[1..] + [x];
      ReverseSnoc(b[1..], x);
    }
  }

  lemma {:induction false} ReverseTwice(b: bytes)
    ensures Reverse(Reverse(b)) == b
  {
    if b != [] {
      ReverseSnoc(Reverse(b[1..]), b[0]);
      ReverseTwice(b[1..]);
    }
  }

  /** A 32-bit field in the file's byte order. */
  function U32(n: nat, big: bool): (b: bytes)
    ensures |b| == 4
  {
    if big then ToBE(n, 4) else Reverse(ToBE(n, 4))
  }

  function ReadU32(b: bytes, i: nat, big: bool): nat
    requires i + 4 <= |b|
  {
    FromBE(if big then b[i..i + 4] else Reverse(b[i..i + 4]))
  }

  lemma U32RoundTrip(b: bytes, i: nat, n: nat, big: bool)
    requires n < 0x1_0000_0000 && At(b, i, U32(n, big))
    ensures ReadU32(b, i, big) == n
  {
    assert Pow256(4) == 0x1_0000_0000;
    FromToBE(n, 4);
    ReverseTwice(ToBE(n, 4));
  }

  /** The frames from offset pos, as `_iter_classic` yields them. */
  function Frames(data: bytes, pos: nat, big: bool): seq<bytes>
    decreases if pos < |data| then |data| - pos else 0
  {
    if pos + 16 > |data| then [] else
      var n := ReadU32(data, pos + 8, big);
      if n == 0 || pos + 16 + n > |data| then []
      else [data[pos + 16..pos + 16 + n]] + Frames(data, pos + 16 + n, big)
  }

  /** `_iter_classic`: the frames, and the link type they all carry. */
  method IterClassic(data: bytes, big: bool) returns (frames: seq<bytes>, linktype: nat)
    ensures |data| < 24 ==> frames == []
    ensures |data| >= 24 ==> frames == Frames(data, 24, big) && linktype == ReadU32(data, 20, big)
  {
    hide ReadU32;
    frames, linktype := [], 0;
    if |data| < 24 {
      return;
    }
    linktype := ReadU32(data, 20, big);
    var pos: nat := 24;
    while pos + 16 <= |data|
      invariant frames + Frames(data, pos, big) == Frames(data, 24, big)
      decreases if pos < |data| then |data| - pos else 0
    {
      var n := ReadU32(data, pos + 8, big);
      if n == 0 || pos + 16 + n > |data| {
        return;
      }
      var frame := data[pos + 16..pos + 16 + n];
      ConcatAssoc(frames, [frame], Frames(data, pos + 16 + n, big));
      frames := frames + [frame];
      pos := pos + 16 + n;
    }
  }

  datatype Record = Record(stamp: bytes, original: nat, frame: bytes)

  predicate RecordOk(r: Record) {
    |r.stamp| == 8 && 0 < |r.frame| < 0x1_0000_0000
  }

  predicate RecordsOk(rs: seq<Record>) {
    forall i :: 0 <= i < |rs| ==> RecordOk(rs[i])
  }

  function EncodeRecord(r: Record, big: bool): bytes
    requires RecordOk(r)
  {
    r.stamp + U32(|r.frame|, big) + U32(r.original, big) + r.frame
  }

  function EncodeRecords(rs: seq<Record>, big: bool): bytes
    requires RecordsOk(rs)
  {
    if rs == [] then [] else EncodeRecord(rs[0], big) + EncodeRecords(rs[1..], big)
  }

  /** The frames of the leading records that fit into the first `room` bytes. */
  function Complete(rs: seq<Record>, room: nat): seq<bytes> {
    if rs == [] || 16 + |rs[0].frame| > room then []
    else [rs[0].frame] + Complete(rs[1..], room - 16 - |rs[0].frame|)
  }

  lemma RecordLayout(b: bytes, off: nat, r: Record, big: bool)
    requires RecordOk(r) && At(b, off, EncodeRecord(r, big))
    ensures At(b, off + 8, U32(|r.frame|, big)) && At(b, off + 16, r.frame)
  {
    var n, o := U32(|r.frame|, big), U32(r.original, big);
    AtConcat(b, off, r.stamp + n + o, r.frame);
    AtConcat(b, off, r.stamp + n, o);
    AtConcat(b, off, r.stamp, n);
  }

  lemma CutAt(whole: bytes, cut: bytes, off: nat, e: bytes)
    requires cut <= whole && At(whole, off, e) && off + |e| <= |cut|
    ensures At(cut, off, e)
  {
    assert cut[off..off + |e|] == whole[off..off + |e|];
  }

  lemma CutRecord(whole: bytes, cut: bytes, off: nat, r: Record, big: bool)
    requires RecordOk(r) && At(whole, off, EncodeRecord(r, big)) && cut <= whole
    ensures off + 16 <= |cut| ==> ReadU32(cut, off + 8, big) == |r.frame|
    ensures off + 16 + |r.frame| <= |cut| ==> cut[off + 16..off + 16 + |r.frame|] == r.frame
  {
    RecordLayout(whole, off, r, big);
    if off + 16 <= |cut| {
      CutAt(whole, cut, off + 8, U32(|r.frame|, big));
      U32RoundTrip(cut, off + 8, |r.frame|, big);
      if off + 16 + |r.frame| <= |cut| {
        CutAt(whole, cut, off + 16, r.frame);
      }
    }
  }

  lemma RecordLength(r: Record, big: bool)
    requires RecordOk(r)
    ensures |EncodeRecord(r, big)| == 16 + |r.frame|
  {
  }

  /** A capture cut off anywhere yields exactly its complete leading records. */
  lemma {:induction false} CutCaptureRead(whole: bytes, cut: bytes, off: nat, rs: seq<Record>, big: bool)
    requires RecordsOk(rs) && At(whole, off, EncodeRecords(rs, big)) && off + |EncodeRecords(rs, big)| == |whole|
    requires cut <= whole && off <= |cut|
    ensures Frames(cut, off, big) == Complete(rs, |cut| - off)
    decreases |rs|
  {
    hide At, ReadU32, EncodeRecord;
    if rs != [] {
      var e := EncodeRecord(rs[0], big);
      AtConcat(whole, off, e, EncodeRecords(rs[1..], big));
      CutRecord(whole, cut, off, rs[0], big);
      RecordLength(rs[0], big);
      if off + |e| <= |cut| {
        CutCaptureRead(whole, cut, off + |e|, rs[1..], big);
      }
    }
  }

  /** In particular a whole file is read record by record, in either byte order. */
  lemma {:induction false} CompleteAll(rs: seq<Record>, big: bool)
    requires RecordsOk(rs)
    ensures |Complete(rs, |EncodeRecords(rs, big)|)| == |rs|
    ensures forall i :: 0 <= i < |rs| ==> Complete(rs, |EncodeRecords(rs, big)|)[i] == rs[i].frame
  {
    hide EncodeRecord;
    if rs != [] {
      var rest := rs[1..];
      RecordLength(rs[0], big);
      CompleteAll(rest, big);
      var done := Complete(rest, |EncodeRecords(rest, big)|);
      assert Complete(rs, |EncodeRecords(rs, big)|) == [rs[0].frame] + done;
      assert forall i :: 0 < i < |rs| ==> rs[i] == rest[i - 1];
    }
  }

  // ---- Whole files -------------------------------------------------------------------------

  /** The byte order the magic number tells, for microsecond and nanosecond stamps; None for no classic pcap. */
  function ByteOrder(data: bytes): Option<bool> {
    if |data| < 4 then None
    else if data[..4] in {[0xA1, 0xB2, 0xC3, 0xD4], [0xA1, 0xB2, 0x3C, 0x4D]} then Some(true)
    else if data[..4] in {[0xD4, 0xC3, 0xB2, 0xA1], [0x4D, 0x3C, 0xB2, 0xA1]} then Some(false)
    else None
  }

  /** The classic branch of `iter_packets`. */
  method IterPackets(data: bytes) returns (frames: seq<bytes>, linktype: nat)
    ensures ByteOrder(data).None? || |data| < 24 ==> frames == []
    ensures ByteOrder(data).Some? && |data| >= 24 ==>
      frames == Frames(data, 24, ByteOrder(data).value) && linktype == ReadU32(data, 20, ByteOrder(data).value)
  {
    frames, linktype := [], 0;
    var big := ByteOrder(data);
    if big.Some? {
      frames, linktype := IterClassic(data, big.value);
    }
  }

  /** The magic number, written as a 32-bit number in the file's own byte order. */
  function Magic(nano: bool, big: bool): bytes {
    U32(if nano then 0xA1B23C4D else 0xA1B2C3D4, big)
  }

  function FrameAt(rs: seq<Record>): seq<bytes> {
    seq(|rs|, i requires 0 <= i < |rs| => rs[i].frame)
  }

  lemma MagicTellsOrder(nano: bool, big: bool, rest: bytes)
    ensures |Magic(nano, big)| == 4 && ByteOrder(Magic(nano, big) + rest) == Some(big)
  {
    MagicBytes(nano, big);
    assert (Magic(nano, big) + rest)[..4] == Magic(nano, big);
    assert [0xA1, 0xB2, 0xC3, 0xD4][0] == 0xA1 && [0xA1, 0xB2, 0x3C, 0x4D][0] == 0xA1;
  }

  lemma MagicBytes(nano: bool, big: bool)
    ensures big ==> Magic(nano, big) == if nano then [0xA1, 0xB2, 0x3C, 0x4D] else [0xA1, 0xB2, 0xC3, 0xD4]
    ensures !big ==> Magic(nano, big) == if nano then [0x4D, 0x3C, 0xB2, 0xA1] else [0xD4, 0xC3, 0xB2, 0xA1]
  {
    var n := if nano then 0xA1B23C4D else 0xA1B2C3D4;
    FourBytes(n, 0xA1, 0xB2, if nano then 0x3C else 0xC3, if nano then 0x4D else 0xD4);
  }

  lemma FourBytes(n: nat, a: byte, b: byte, c: byte, d: byte)
    requires n == ((a * 256 + b) * 256 + c) * 256 + d
    ensures ToBE(n, 4) == [a, b, c, d] && Reverse(ToBE(n, 4)) == [d, c, b, a]
  {
    var x, y, z := (a * 256 + b) * 256 + c, a * 256 + b, a as nat;
    assert n / 256 == x && n % 256 == d && x / 256 == y && x % 256 == c && y / 256 == z && y % 256 == b;
    assert ToBE(z, 1) == ToBE(z / 256, 0) + [z % 256] == [a];
    assert ToBE(y, 2) == [a, b];
    assert ToBE(x, 3) == [a, b, c];
    assert ToBE(n, 4) == [a, b, c, d];
    ReverseSnoc([a, b, c], d);
    ReverseSnoc([a, b], c);
    ReverseSnoc([a], b);
    ReverseSnoc([], a);
    assert [] + [a] == [a] && [a] + [b] == [a, b] && [a, b] + [c] == [a, b, c] && [a, b, c] + [d] == [a, b, c, d];
  }

  /** A classic capture of either byte order and either resolution, with any version fields, is read to its link type
      and all its frames. */
  lemma FileRead(nano: bool, big: bool, fields: bytes, linktype: nat, rs: seq<Record>)
    requires |fields| == 16 && linktype < 0x1_0000_0000 && RecordsOk(rs)
    ensures var data := Magic(nano, big) + fields + U32(linktype, big) + EncodeRecords(rs, big);
      && ByteOrder(data) == Some(big) && |data| >= 24
      && ReadU32(data, 20, big) == linktype && Frames(data, 24, big) == FrameAt(rs)
  {
    hide At, U32, Magic, EncodeRecords, Frames, ByteOrder, ReadU32, Complete;
    var head, body := Magic(nano, big) + fields + U32(linktype, big), EncodeRecords(rs, big);
    var data := head + body;
    MagicTellsOrder(nano, big, fields + U32(linktype, big) + body);
    assert data == Magic(nano, big) + (fields + U32(linktype, big) + body);
    Standing(Magic(nano, big), fields, U32(linktype, big), body);
    U32RoundTrip(data, 20, linktype, big);
    CutCaptureRead(data, data, 24, rs, big);
    CompleteAll(rs, big);
    assert Frames(data, 24, big) == FrameAt(rs);
  }

  lemma Standing(a: bytes, b: bytes, c: bytes, d: bytes)
    requires |a| == 4 && |b| == 16 && |c| == 4
    ensures At(a + b + c + d, 20, c) && At(a + b + c + d, 24, d) && |a + b + c + d| == 24 + |d|
  {
  }
}
