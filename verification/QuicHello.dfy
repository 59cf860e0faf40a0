/** The QUIC path of probes/fs_pcap_crypto.py: unprotect an Initial, wrap its handshake message, parse the record. */
module QuicHello {
  import opened Common
  import opened Bytes
  import opened Tls13
  import opened Quic
  import opened QuicInitial
  import opened ClientHello

  /** `_wrap_tls_record`. */
  function WrapRecord(handshake: bytes): bytes
    requires |handshake| < 65536
  {
    [0x16, 0x03, 0x03] + U16(|handshake|) + handshake
  }

  /** The UDP branch of `_analyze`, up to the parsed hello; None too where a length does not fit the record header. */
  function HelloOfDatagram(c: Crypto, payload: bytes): Option<Hello>
    requires Lawful(c)
  {
    var handshake := ExtractClientHello(c, payload);
    if handshake.None? || |handshake.value| >= 65536 then None else ParseRecord(WrapRecord(handshake.value))
  }

  /** The ClientHello handshake message that CRYPTO frames carry. */
  function Handshake(m: Message): bytes
    requires MessageOk(m)
  {
    [1] + ToBE(|EncodeBody(m)|, 3) + EncodeBody(m)
  }

  lemma WrappedIsARecord(m: Message)
    requires MessageOk(m) && |EncodeBody(m)| + 4 < 65536
    ensures |Handshake(m)| == 4 + |EncodeBody(m)| && WrapRecord(Handshake(m)) == EncodeRecord(m, 0x0303)
  {
    hide EncodeBody, ToBE;
    assert U16(0x0303) == [0x03, 0x03];
  }

  /** End to end: a protected Initial whose CRYPTO frames tile a ClientHello, in any order and whatever else is in the
      packet or follows it, yields exactly what the ClientHello offers. */
  lemma InitialYieldsHello(c: Crypto, p: Initial, fs: seq<Frame>, m: Message, rest: bytes)
    requires Lawful(c) && WellFormed(p) && |Protect(c, p) + rest| <= MAX_QUIC
    requires MessageOk(m) && |EncodeBody(m)| + 4 < 65536
    requires AllFit(fs) && p.frames == EncodeFrames(fs) && Tiles(fs, Handshake(m))
    ensures HelloOfDatagram(c, Protect(c, p) + rest) == Some(Meaning(m))
  {
    hide Lawful, WellFormed, Protect, ExtractClientHello, Reassemble, Tiles, EncodeFrames, ParseRecord, EncodeRecord,
      EncodeBody, Meaning, WrapRecord, Handshake;
    UnprotectionInvertsProtection(c, p, rest);
    WrappedIsARecord(m);
    ReassemblyIsComplete(fs, Handshake(m));
    ClientHelloRoundTrip(m, 0x0303, []);
    assert EncodeRecord(m, 0x0303) + [] == EncodeRecord(m, 0x0303);
  }
}
