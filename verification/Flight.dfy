/** The server flight as a record stream: what leaves the NIC is read back, record by record, by the NIC's own
    reassembly. */
module Flight {
  import opened Bytes
  import opened Tls
  import opened Handshake
  import opened HandshakeProofs
  import Session
  import Records

  lemma FramedIsRecord(kind: byte, version: b2, body: bytes)
    requires |body| < Records.MAX_RECORD_SIZE
    ensures Records.IsRecord(RecordHeader(kind, version, |body|) + body)
  {
    var header := RecordHeader(kind, version, |body|);
    assert |header| == 5 && header[3..5] == U16(|body|);
    assert (header + body)[3..5] == header[3..5];
    Get16U16(|body|);
  }

  lemma WireRecordIsRecord(p: Prims, keys: HandshakeKeys, version: b2, gcm: bool, msg: bytes, i: nat)
    requires Sound(p) && 1 <= i < 100 && |msg| + 17 < Records.MAX_RECORD_SIZE
    ensures Records.IsRecord(WireRecord(p, keys, version, gcm, msg, i))
  {
    if i == 1 {
      FramedIsRecord(HANDSHAKE, version, msg);
    } else if gcm {
      var inner := msg + [HANDSHAKE];
      var header := RecordHeader(APPLICATION_DATA, version, |inner| + TAG);
      FramedIsRecord(APPLICATION_DATA, version,
                     p.seal(keys.serverKey, Nonce(Fit(keys.serverIv, 12), i - 2), header, inner));
    } else {
      FramedIsRecord(APPLICATION_DATA, version, msg + [HANDSHAKE]);
    }
  }

  /** A held flight is a stream of exactly the five server records. */
  lemma FlightReadsBack(h: Hs, p: Prims, cert: bytes)
    requires Sound(p) && Inv(h, p, cert) && h.step == CERTIFICATE_VERIFY
    ensures Records.Feed(Records.Idle, h.buffer) == Records.Progress(Records.Idle, h.records) && |h.records| == 5
  {
    Session.TranscriptLength(h, p, cert);
    forall i | 0 <= i < |h.records|
      ensures Records.IsRecord(h.records[i])
    {
      assert h.records[i] == WireRecord(p, h.keys, h.version, h.writeGcm, h.msgs[i + 1], i + 1);
      assert |h.msgs[i + 1]| + 17 < Records.MAX_RECORD_SIZE;
      WireRecordIsRecord(p, h.keys, h.version, h.writeGcm, h.msgs[i + 1], i + 1);
    }
    Records.ReadsBack(h.records);
  }
}
