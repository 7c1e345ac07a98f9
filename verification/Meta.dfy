/** The bytes of the key meta and of the mig-fin: what send_key_meta and build_connection_meta pack, what
    handle_meta_data unpacks, what send_mig_fin_to_arm answers and what the NIC reads of the answer. */
module Meta {
  import opened Bytes
  import opened Tls
  import opened Nic
  import Migration

  const META_LEN: nat := 826       // 38 + sizeof(conn_meta_t)
  const CONN_META: nat := 38
  const CONN_META_LEN: nat := 788
  const FIN_LEN: nat := 64

  // ---------------------------------------------------------------- buffers

  /** The `n` bytes at `at`. */
  function Field(b: bytes, at: nat, n: nat): (f: bytes)
    requires at + n <= |b|
    ensures |f| == n
  {
    seq(n, i requires 0 <= i < n => b[at + i])
  }

  /** memcpy of `d` to offset `at`. */
  function Put(b: bytes, at: nat, d: bytes): (r: bytes)
    requires at + |d| <= |b|
    ensures |r| == |b|
  {
    seq(|b|, i requires 0 <= i < |b| => if at <= i < at + |d| then d[i - at] else b[i])
  }

  lemma GetPut(b: bytes, at: nat, d: bytes)
    requires at + |d| <= |b|
    ensures Field(Put(b, at, d), at, |d|) == d
  {}

  lemma GetOther(b: bytes, at: nat, d: bytes, from: nat, n: nat)
    requires at + |d| <= |b| && from + n <= |b| && (from + n <= at || at + |d| <= from)
    ensures Field(Put(b, at, d), from, n) == Field(b, from, n)
  {}

  /** Writes in order: each is an offset and its bytes. */
  datatype Write = Write(at: nat, data: bytes)

  ghost predicate Fits(ws: seq<Write>, len: nat)
  {
    forall i :: 0 <= i < |ws| ==> ws[i].at + |ws[i].data| <= len
  }

  function PutAll(b: bytes, ws: seq<Write>): (r: bytes)
    requires Fits(ws, |b|)
    ensures |r| == |b|
  {
    if ws == [] then b else Put(PutAll(b, ws[..|ws| - 1]), ws[|ws| - 1].at, ws[|ws| - 1].data)
  }

  predicate Apart(w: Write, at: nat, n: nat)
  {
    at + n <= w.at || w.at + |w.data| <= at
  }

  /** A field reads as the last write to exactly it, if every later write is elsewhere. */
  lemma {:induction false} Written(b: bytes, ws: seq<Write>, k: nat)
    requires Fits(ws, |b|) && k < |ws|
    requires forall i :: k < i < |ws| ==> Apart(ws[i], ws[k].at, |ws[k].data|)
    ensures Field(PutAll(b, ws), ws[k].at, |ws[k].data|) == ws[k].data
    decreases |ws|
  {
    var n := |ws| - 1;
    var front, w := ws[..n], ws[n];
    if k == n {
      GetPut(PutAll(b, front), w.at, w.data);
    } else {
      Written(b, front, k);
      GetOther(PutAll(b, front), w.at, w.data, ws[k].at, |ws[k].data|);
    }
  }

  /** Bytes no write reaches stay. */
  lemma {:induction false} Unwritten(b: bytes, ws: seq<Write>, at: nat, n: nat)
    requires Fits(ws, |b|) && at + n <= |b|
    requires forall i :: 0 <= i < |ws| ==> Apart(ws[i], at, n)
    ensures Field(PutAll(b, ws), at, n) == Field(b, at, n)
    decreases |ws|
  {
    if ws != [] {
      var m := |ws| - 1;
      Unwritten(b, ws[..m], at, n);
      GetOther(PutAll(b, ws[..m]), ws[m].at, ws[m].data, at, n);
    }
  }

  // ---------------------------------------------------------------- the key meta

  /** What the NIC packs: the connection's addresses and numbers, the keys, and the fields of the session
      that the host ignores. */
  datatype Content = Content(tuple: Tuple, pair: Pair, ethType: u16, sessionId: b2, major: byte, algorithms: b12,
                             clientKey: b32, serverKey: b32, clientIv: b12, serverIv: b12)

  /** The assignments of send_key_meta and build_connection_meta, in their order; the negotiated suite has
      32-byte keys, 12-byte IVs and no MAC. */
  function Writes(m: Content): (ws: seq<Write>)
    ensures |ws| == 17
  {
    [Write(26, U32(m.tuple.clientIp)),
     Write(30, U32(m.tuple.serverIp)),
     Write(34, U16(m.tuple.clientPort)),
     Write(36, U16(m.tuple.serverPort)),
     Write(4, U32(m.pair.seqNo)),
     Write(8, U32(m.pair.ackNo)),
     Write(12, U16(m.ethType)),
     Write(CONN_META, Zeros(CONN_META_LEN)),
     Write(CONN_META, m.sessionId),
     Write(CONN_META + 4, m.algorithms),
     Write(CONN_META + 2, [m.major, 0x04]),
     Write(CONN_META + 273, [32]),
     Write(CONN_META + 274, m.clientKey),
     Write(CONN_META + 402, m.serverKey),
     Write(CONN_META + 530, [12]),
     Write(CONN_META + 531, m.clientIv),
     Write(CONN_META + 659, m.serverIv)]
  }

  type MetaBuffer = b: bytes | |b| == META_LEN witness Zeros(META_LEN)

  lemma WritesFit(m: Content)
    ensures Fits(Writes(m), META_LEN)
  {}

  /** The key meta, packed over whatever the connection's header buffer held. */
  function KeyPacket(header: MetaBuffer, m: Content): MetaBuffer
  {
    WritesFit(m);
    PutAll(header, Writes(m))
  }

  /** What the host keeps of a key meta. */
  datatype HostView = HostView(seqNo: u32, ackNo: u32, clientIp: u32, clientPort: u16, version: u16,
                               rxKey: bytes, rxSalt: bytes, rxIv: bytes, txKey: bytes, txSalt: bytes, txIv: bytes)

  /** handle_meta_data */
  function HandleMetaData(b: MetaBuffer): HostView
  {
    var v := Field(b, CONN_META + 2, 2);
    HostView(Get32(Field(b, 4, 4)), Get32(Field(b, 8, 4)), Get32(Field(b, 26, 4)), Get16(Field(b, 34, 2)),
             (v[0] as int) * 256 + v[1] as int,
             Field(b, CONN_META + 274, 32), Field(b, CONN_META + 531, 4), Field(b, CONN_META + 535, 8),
             Field(b, CONN_META + 402, 32), Field(b, CONN_META + 659, 4), Field(b, CONN_META + 663, 8))
  }

  /** The fields the host reads, as they stand in the packet. */
  lemma AddressesStand(header: MetaBuffer, m: Content)
    ensures var b := KeyPacket(header, m);
            && Field(b, 4, 4) == U32(m.pair.seqNo) && Field(b, 8, 4) == U32(m.pair.ackNo)
            && Field(b, 26, 4) == U32(m.tuple.clientIp) && Field(b, 34, 2) == U16(m.tuple.clientPort)
  {
    WritesFit(m);
    var ws := Writes(m);
    Written(header, ws, 0);
    Written(header, ws, 2);
    Written(header, ws, 4);
    Written(header, ws, 5);
  }

  lemma KeysStand(header: MetaBuffer, m: Content)
    ensures var b := KeyPacket(header, m);
            && Field(b, CONN_META + 2, 2) == [m.major, 0x04]
            && Field(b, CONN_META + 274, 32) == m.clientKey && Field(b, CONN_META + 402, 32) == m.serverKey
            && Field(b, CONN_META + 531, 12) == m.clientIv && Field(b, CONN_META + 659, 12) == m.serverIv
  {
    WritesFit(m);
    var ws := Writes(m);
    Written(header, ws, 10);
    Written(header, ws, 12);
    Written(header, ws, 13);
    Written(header, ws, 15);
    Written(header, ws, 16);
  }

  lemma SplitField(b: bytes, at: nat, whole: b12)
    requires at + 12 <= |b| && Field(b, at, 12) == whole
    ensures Field(b, at, 4) + Field(b, at + 4, 8) == whole
  {
    var f := Field(b, at, 4) + Field(b, at + 4, 8);
    forall i | 0 <= i < 12
      ensures f[i] == whole[i]
    {
      assert whole[i] == Field(b, at, 12)[i];
    }
  }

  /** Whatever the header buffer held before, the host recovers the pair, the client's address, both keys,
      both IVs as salt and explicit part, and for major version 3 the version 0x0304. */
  lemma MetaRoundTrip(header: MetaBuffer, m: Content)
    ensures var v := HandleMetaData(KeyPacket(header, m));
            && v.seqNo == m.pair.seqNo && v.ackNo == m.pair.ackNo
            && v.clientIp == m.tuple.clientIp && v.clientPort == m.tuple.clientPort
            && v.rxKey == m.clientKey && v.txKey == m.serverKey
            && v.rxSalt + v.rxIv == m.clientIv && v.txSalt + v.txIv == m.serverIv
            && (v.version == 0x0304 <==> m.major == 3)
  {
    AddressesStand(header, m);
    KeysStand(header, m);
    var b := KeyPacket(header, m);
    SplitField(b, CONN_META + 531, m.clientIv);
    SplitField(b, CONN_META + 659, m.serverIv);
    Get32U32(m.pair.seqNo);
    Get32U32(m.pair.ackNo);
    Get32U32(m.tuple.clientIp);
    Get16U16(m.tuple.clientPort);
  }

  // ---------------------------------------------------------------- the answer

  /** send_mig_fin_to_arm: a zeroed packet with the fields the NIC looks at. */
  function FinWrites(v: HostView, tos: byte, ackForRst: u32): (ws: seq<Write>)
    ensures |ws| == 10
  {
    [Write(12, [0x08, 0x00]),
     Write(14, [0x45, tos, 0x00, 0x28]),
     Write(22, [64, 6]),
     Write(26, U32(v.clientIp)),
     Write(30, U32(Migration.SERVER_IP)),
     Write(34, U16(v.clientPort)),
     Write(36, U16(Migration.SSL_PORT)),
     Write(38, U32(v.seqNo)),
     Write(42, U32(v.ackNo)),
     Write(48, U32(ackForRst))]
  }

  type FinBuffer = b: bytes | |b| == FIN_LEN witness Zeros(FIN_LEN)

  lemma FinFits(v: HostView, tos: byte, ackForRst: u32)
    ensures Fits(FinWrites(v, tos, ackForRst), FIN_LEN)
  {}

  function MigFinPacket(v: HostView, ackForRst: u32): FinBuffer
  {
    FinFits(v, 0xfd, ackForRst);
    PutAll(Zeros(FIN_LEN), FinWrites(v, 0xfd, ackForRst))
  }

  /** What process_host_mig_fin reads: the type of service, the tuple it searches and the pair it compares. */
  datatype NicView = NicView(tos: byte, tuple: Tuple, pair: Pair)

  function ReadFin(b: FinBuffer): NicView
  {
    NicView(b[15],
            Tuple(Get32(Field(b, 26, 4)), Get16(Field(b, 34, 2)), Get32(Field(b, 30, 4)), Get16(Field(b, 36, 2))),
            Pair(Get32(Field(b, 38, 4)), Get32(Field(b, 42, 4))))
  }

  lemma FinReadsBack(v: HostView, ackForRst: u32)
    ensures ReadFin(MigFinPacket(v, ackForRst))
            == NicView(0xfd, Tuple(v.clientIp, v.clientPort, Migration.SERVER_IP, Migration.SSL_PORT),
                       Pair(v.seqNo, v.ackNo))
  {
    FinFits(v, 0xfd, ackForRst);
    var ws, zero := FinWrites(v, 0xfd, ackForRst), Zeros(FIN_LEN);
    Written(zero, ws, 1);
    Written(zero, ws, 3);
    Written(zero, ws, 4);
    Written(zero, ws, 5);
    Written(zero, ws, 6);
    Written(zero, ws, 7);
    Written(zero, ws, 8);
    assert Field(MigFinPacket(v, ackForRst), 14, 4)[1] == 0xfd;
    Get32U32(v.clientIp);
    Get32U32(Migration.SERVER_IP);
    Get16U16(v.clientPort);
    Get16U16(Migration.SSL_PORT);
    Get32U32(v.seqNo);
    Get32U32(v.ackNo);
  }

  /** The mig-fin for a key meta passes the NIC's pair test against the header that was sent, and is looked up
      under the connection's own tuple exactly when the server side is the address the host is built with. */
  lemma MigFinMatches(header: MetaBuffer, m: Content, ackForRst: u32)
    ensures var fin := ReadFin(MigFinPacket(HandleMetaData(KeyPacket(header, m)), ackForRst));
            && fin.tos == 0xfd
            && fin.pair == m.pair
            && (fin.tuple == m.tuple <==>
                  m.tuple.serverIp == Migration.SERVER_IP && m.tuple.serverPort == Migration.SSL_PORT)
  {
    MetaRoundTrip(header, m);
    FinReadsBack(HandleMetaData(KeyPacket(header, m)), ackForRst);
  }

  /** A reset meta is packed in the same layout, but the host looks the client up at offsets 0 and 14, which
      are padding: with padding as allocated, it always asks for address 0 and port 0. */
  lemma ResetLooksUpNobody(header: MetaBuffer, m: Content)
    requires Field(header, 0, 4) == Zeros(4) && Field(header, 14, 2) == Zeros(2)
    ensures var b := KeyPacket(header, m); Get32(Field(b, 0, 4)) == 0 && Get16(Field(b, 14, 2)) == 0
  {
    WritesFit(m);
    Unwritten(header, Writes(m), 0, 4);
    Unwritten(header, Writes(m), 14, 2);
  }

  // ---------------------------------------------------------------- in place

  /** memcpy into a buffer. */
  method CopyTo(buf: array<byte>, at: nat, data: bytes)
    requires at + |data| <= buf.Length
    modifies buf
    ensures buf[..] == Put(old(buf[..]), at, data)
  {
    forall i | 0 <= i < |data| {
      buf[at + i] := data[i];
    }
  }

  /** The header buffer of a connection takes the assignments one after another. */
  method SendKeyMeta(header: array<byte>, m: Content)
    requires header.Length == META_LEN
    modifies header
    ensures header[..] == KeyPacket(old(header[..]), m)
  {
    WritesFit(m);
    var ws := Writes(m);
    var k := 0;
    while k < |ws|
      invariant 0 <= k <= |ws| && Fits(ws[..k], META_LEN)
      invariant header[..] == PutAll(old(header[..]), ws[..k])
    {
      CopyTo(header, ws[k].at, ws[k].data);
      assert ws[..k + 1][..k] == ws[..k];
      k := k + 1;
    }
    assert ws[..k] == ws;
  }
}
