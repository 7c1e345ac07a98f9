/** What every step of a session keeps: the transcript discipline of sections 4.4.1 and 7.1 of RFC 8446,
    the pairing of handshake_state with the outstanding PKA request, the record sequence numbers and the
    bytes queued for the client. */
module HandshakeProofs {
  import opened Bytes
  import opened Tls
  import opened Handshake
  import Der

  // ---------------------------------------------------------------- the invariant

  /** How many messages the transcript holds at each resting value of handshake_state. */
  function MsgCount(step: int): (n: nat)
    ensures n <= 6
  {
    if step == HELLO_REQUEST then 0
    else if step == SERVER_HELLO then 2
    else if step == CERTIFICATE then 4
    else 6
  }

  predicate Resting(step: int)
  {
    step in {HELLO_REQUEST, SERVER_HELLO, CERTIFICATE, CERTIFICATE_VERIFY, CLIENT_CIPHER_SPEC, FINISHED}
  }

  /** The messages are a prefix of ClientHello, ServerHello, EncryptedExtensions, Certificate,
      CertificateVerify, Finished. */
  ghost predicate TypesAre(msgs: seq<bytes>, n: nat)
    requires n <= 6
  {
    |msgs| == n && forall i :: 0 <= i < n ==> msgs[i] != [] && msgs[i][0] == FlightType(i)
  }

  /** The first `k` messages, concatenated. */
  function Upto(msgs: seq<bytes>, k: nat): bytes
  {
    Flatten(if k <= |msgs| then msgs[..k] else msgs)
  }

  /** Every hash of the transcript was taken over exactly its prescribed prefix: the handshake keys over
      ClientHello..ServerHello, CertificateVerify over ..Certificate, the server Finished over
      ..CertificateVerify, the application keys and the expected client Finished over ..server Finished. */
  ghost predicate HashesAre(n: nat, msgs: seq<bytes>, keyCalc: bool, gcm: bool, uses: Uses)
  {
    && uses.hsKeys == (if keyCalc && gcm then Some(Upto(msgs, 2)) else None)
    && uses.certVerify == (if n >= 4 then Some(Upto(msgs, 4)) else None)
    && uses.serverFin == (if n >= 6 then Some(Upto(msgs, 5)) else None)
    && uses.appKeys == (if n >= 6 && gcm then Some(Upto(msgs, 6)) else None)
    && uses.clientFin == (if n >= 6 then Some(Upto(msgs, 6)) else None)
  }

  ghost predicate Transcript(n: nat, msgs: seq<bytes>, transcript: bytes)
    requires n <= 6
  {
    TypesAre(msgs, n) && transcript == Flatten(msgs)
  }

  /** The request outstanding in each state; None where the code must have no request. */
  function ExpectedOp(h: Hs): Option<Opcode>
  {
    if h.step == HELLO_REQUEST then (if h.held.Some? then Some(KeyGen) else None)
    else if h.step == SERVER_HELLO then (if h.keyCalc then None else Some(SharedSecret))
    else if h.step == CERTIFICATE then (if h.signed then None else Some(Signature))
    else None
  }

  ghost predicate Pairing(h: Hs)
  {
    && Resting(h.step)
    && h.pendingOp == ExpectedOp(h)
    && (h.completed ==> h.pendingOp.Some?)
    && (h.waiting ==> h.pendingOp.Some?)
    && (h.pendingOp.Some? && h.step != SERVER_HELLO ==> h.waiting)
    && (h.step != HELLO_REQUEST ==> h.held.None?)
    && (h.held.Some? ==> IsHello(h.held.value))
    && (h.keyCalc ==> MsgCount(h.step) >= 2)
    && (MsgCount(h.step) >= 4 ==> h.keyCalc)
    && (h.signed ==> MsgCount(h.step) >= 4)
    && (MsgCount(h.step) >= 6 ==> h.signed)
    && (if h.step == HELLO_REQUEST then !h.writeGcm else h.writeGcm == h.pendingGcm)
    && |h.signature| <= 72
  }

  /** Records sealed so far: one per message after the ServerHello. */
  function SealedCount(n: nat, gcm: bool): nat
  {
    if !gcm || n < 2 then 0 else n - 2
  }

  /** Every nonce is the IV combined with its position: 0, 1, 2, ... */
  ghost predicate NoncesAre(iv: bytes, nonces: seq<bytes>)
  {
    |nonces| < 90 && forall i :: 0 <= i < |nonces| ==> nonces[i] == Nonce(Fit(iv, 12), i)
  }

  /** send_seq_num_, server_write_IV_seq_num and the number of sealed records move together. */
  ghost predicate SeqAgree(n: nat, gcm: bool, sendSeq: u64, ivSeq: u64, iv: bytes, nonces: seq<bytes>)
  {
    sendSeq == ivSeq == |nonces| == SealedCount(n, gcm) && NoncesAre(iv, nonces)
  }

  /** Stored keys are the RFC's, over the prescribed messages. */
  ghost predicate KeysAgree(p: Prims, n: nat, gcm: bool, keyCalc: bool, dhe: bytes, msgs: seq<bytes>,
                            keys: HandshakeKeys, app: AppKeys, vd: bytes)
  {
    && (keyCalc && gcm ==> keys == RfcHandshakeKeys(p, dhe, Upto(msgs, 2)))
    && (n == 6 && gcm ==> app == RfcAppKeys(p, dhe, Upto(msgs, 6)))
    && (n == 6 ==> vd == FinishedMac(p, keys.clientSecret, Upto(msgs, 6)))
  }

  /** The record that carries message `i` of the transcript (the ServerHello is message 1). */
  function WireRecord(p: Prims, keys: HandshakeKeys, version: b2, gcm: bool, msg: bytes, i: nat): bytes
    requires 1 <= i < 100
  {
    if i == 1 then PlainRecord(HANDSHAKE, version, msg)
    else if gcm then SealedRecord(p, keys.serverKey, Nonce(Fit(keys.serverIv, 12), i - 2), version, msg)
    else PlainRecord(APPLICATION_DATA, version, msg + [HANDSHAKE])
  }

  /** One record per message after the ClientHello, in order. */
  ghost predicate RecordsAre(p: Prims, keys: HandshakeKeys, version: b2, gcm: bool, msgs: seq<bytes>,
                             records: seq<bytes>)
  {
    && |msgs| < 90
    && |records| == (if msgs == [] then 0 else |msgs| - 1)
    && forall i :: 0 <= i < |records| ==> records[i] == WireRecord(p, keys, version, gcm, msgs[i + 1], i + 1)
  }

  /** Lengths of the messages the server has contributed. */
  ghost predicate Shapes(msgs: seq<bytes>, cert: bytes, sig: bytes)
  {
    && (|msgs| > 1 ==> |msgs[1]| == 122)
    && (|msgs| > 2 ==> |msgs[2]| == 6)
    && (|msgs| > 3 ==> |msgs[3]| == |cert| + 13)
    && (|msgs| > 4 ==> |msgs[4]| == |sig| + 8)
    && (|msgs| > 5 ==> |msgs[5]| == 52)
  }

  /** The messages of the server's flight are the RFC's, with the certificate, the signature under the algorithm
      chosen, and the verify_data of the server's handshake secret over everything before it. */
  ghost predicate Bodies(p: Prims, serverSecret: bytes, sigAlg: b2, sig: bytes, cert: bytes, msgs: seq<bytes>)
  {
    && (|msgs| > 2 ==> msgs[2] == EncryptedExtensionsMsg())
    && (|msgs| > 3 ==> msgs[3] == CertificateMsg(cert))
    && (|msgs| > 4 ==> msgs[4] == CertificateVerifyMsg(sigAlg, sig))
    && (|msgs| > 5 ==> msgs[5] == FinishedMsg(FinishedMac(p, serverSecret, Upto(msgs, 5))))
  }

  /** What is queued for the client, and after the release what is kept for retransmission. */
  ghost predicate Queued(released: bool, buffer: bytes, serverRecords: bytes, records: seq<bytes>)
  {
    if released then buffer == [] && serverRecords == Flatten(records) else buffer == Flatten(records)
  }

  /** No array is overrun: the transcript stays below its size, the flight is at most 22 bytes per record
      longer, and what was released fitted server_records. */
  ghost predicate Bounded(transcript: bytes, buffer: bytes, count: nat, released: bool, serverRecords: bytes)
  {
    && |transcript| < MAX_HANDSHAKE && |buffer| <= |transcript| + 22 * count
    && (released ==> |serverRecords| <= SERVER_RECORDS)
  }

  /** Release, activation and the client's second flight, for clients that follow Appendix D.4 of RFC 8446. */
  ghost predicate Progress(h: Hs)
  {
    && (h.released <==> h.step == FINISHED || h.step == CLIENT_CIPHER_SPEC)
    && (h.state.Active? <==> h.accepted.Some?)
    && (h.accepted.Some? ==> h.released && h.accepted.value == Fit(h.vd, 48))
    && (h.readGcm ==> h.released)
    && (h.step == CLIENT_CIPHER_SPEC || h.state.Active? ==> h.readGcm == h.pendingGcm)
  }

  ghost predicate QueueOrdered(recvQ: seq<Rec>)
  {
    forall i :: 0 <= i < |recvQ| ==>
      !recvQ[i].CcsRec? && !recvQ[i].DataRec? && (recvQ[i].HelloRec? ==> IsHello(recvQ[i].ch))
  }

  ghost predicate Inv(h: Hs, p: Prims, cert: bytes)
  {
    var n := MsgCount(h.step);
    && Transcript(n, h.msgs, h.transcript)
    && HashesAre(n, h.msgs, h.keyCalc, h.pendingGcm, h.uses)
    && Pairing(h)
    && SeqAgree(n, h.writeGcm, h.sendSeq, h.ivSeq, h.keys.serverIv, h.nonces)
    && KeysAgree(p, n, h.pendingGcm, h.keyCalc, h.dhe, h.msgs, h.keys, h.app, h.vd)
    && RecordsAre(p, h.keys, h.version, h.writeGcm, h.msgs, h.records)
    && Shapes(h.msgs, cert, h.signature)
    && Bodies(p, h.keys.serverSecret, h.sigAlg, h.signature, cert, h.msgs)
    && Queued(h.released, h.buffer, h.serverRecords, h.records)
    && Bounded(h.transcript, h.buffer, |h.records|, h.released, h.serverRecords)
    && Progress(h)
    && QueueOrdered(h.recvQ)
  }

  lemma InitInv(serverRecords: bytes, p: Prims, cert: bytes)
    ensures Inv(Cleared(serverRecords), p, cert)
  {}

  // ---------------------------------------------------------------- appending one message

  lemma UptoStable(msgs: seq<bytes>, m: bytes, k: nat)
    requires k <= |msgs|
    ensures Upto(msgs + [m], k) == Upto(msgs, k)
  {
    assert (msgs + [m])[..k] == msgs[..k];
  }

  lemma UptoAll(msgs: seq<bytes>)
    ensures Upto(msgs, |msgs|) == Flatten(msgs)
  {
    assert msgs[..|msgs|] == msgs;
  }

  lemma RecordLength(p: Prims, keys: HandshakeKeys, version: b2, gcm: bool, msg: bytes, i: nat)
    requires Sound(p) && 1 <= i < 100
    ensures |WireRecord(p, keys, version, gcm, msg, i)| == |msg| + (if i == 1 then 5 else if gcm then 22 else 6)
  {}

  /** A sealed send, when the sequence numbers agree and the buffer has room, exits exactly when the
      transcript is full; otherwise one nonce, one record, one message. */
  lemma SendSealedEffect(h: Hs, p: Prims, msgType: byte, msg: bytes)
    requires Sound(p) && msgType > h.step && h.sendSeq == h.ivSeq == |h.nonces| < 90
    requires |h.transcript| + |msg| < MAX_HANDSHAKE ==> |h.buffer| + |msg| + 22 <= SEND_BUFFER
    ensures var o := SendSealed(h, p, msgType, msg);
            && (o.Some? <==> |h.transcript| + |msg| < MAX_HANDSHAKE)
            && (o.Some? ==>
            var h' := o.value;
               var r := WireRecord(p, h.keys, h.version, h.writeGcm, msg, |h.nonces| + 2);
               var k := if h.writeGcm then 1 else 0;
            h' == h.(transcript := h.transcript + msg, msgs := h.msgs + [msg],
                     buffer := h.buffer + r, records := h.records + [r],
                     sendSeq := h.sendSeq + k, ivSeq := h.ivSeq + k,
                     nonces := if h.writeGcm then h.nonces + [Nonce(Fit(h.keys.serverIv, 12), |h.nonces|)]
                               else h.nonces))
  {
    RecordLength(p, h.keys, h.version, h.writeGcm, msg, |h.nonces| + 2);
    if h.writeGcm {
      assert SendSealed(h, p, msgType, msg).Some? <==> |h.transcript| + |msg| < MAX_HANDSHAKE;
    } else {
      assert SendSealed(h, p, msgType, msg).Some? <==> |h.transcript| + |msg| < MAX_HANDSHAKE;
    }
  }

  /** The part of the invariant that one sealed message after another extends. */
  ghost predicate Core(h: Hs, p: Prims, n: nat)
  {
    && 2 <= n <= 6
    && Transcript(n, h.msgs, h.transcript)
    && SeqAgree(n, h.writeGcm, h.sendSeq, h.ivSeq, h.keys.serverIv, h.nonces)
    && RecordsAre(p, h.keys, h.version, h.writeGcm, h.msgs, h.records)
    && h.buffer == Flatten(h.records)
    && Bounded(h.transcript, h.buffer, |h.records|, false, [])
  }

  /** `h'` is `h` with message `msg` sent, nothing else touched. */
  ghost predicate Sent(h: Hs, h': Hs, n: nat, msg: bytes)
  {
    && h' == h.(transcript := h'.transcript, msgs := h.msgs + [msg], buffer := h'.buffer, records := h'.records,
                nonces := h'.nonces, sendSeq := h'.sendSeq, ivSeq := h'.ivSeq)
    && (forall k: nat :: k <= n ==> Upto(h'.msgs, k) == Upto(h.msgs, k))
    && Upto(h'.msgs, n + 1) == h'.transcript
  }

  lemma SendAdvances(h: Hs, p: Prims, n: nat, msgType: byte, msg: bytes)
    requires Sound(p) && Core(h, p, n) && n < 6
    requires msgType > h.step && msg != [] && msg[0] == FlightType(n)
    ensures var o := SendSealed(h, p, msgType, msg);
            && (o.Some? <==> |h.transcript| + |msg| < MAX_HANDSHAKE)
            && (o.Some? ==> Core(o.value, p, n + 1) && Sent(h, o.value, n, msg))
  {
    SendSealedEffect(h, p, msgType, msg);
    if |h.transcript| + |msg| < MAX_HANDSHAKE {
      SentAdvances(h, p, n, msgType, msg);
    }
  }

  lemma SentAdvances(h: Hs, p: Prims, n: nat, msgType: byte, msg: bytes)
    requires Sound(p) && Core(h, p, n) && n < 6
    requires msgType > h.step && msg != [] && msg[0] == FlightType(n) && |h.transcript| + |msg| < MAX_HANDSHAKE
    ensures var o := SendSealed(h, p, msgType, msg);
            o.Some? && Core(o.value, p, n + 1) && Sent(h, o.value, n, msg)
  {
    SendSealedEffect(h, p, msgType, msg);
    var h' := SendSealed(h, p, msgType, msg).value;
    var r := WireRecord(p, h.keys, h.version, h.writeGcm, msg, |h.nonces| + 2);
    FlattenSnoc(h.msgs, msg);
    CoreAdvances(h, h', p, n, msg, r);
    SentFrame(h.msgs, msg, n);
  }

  lemma CoreAdvances(h: Hs, h': Hs, p: Prims, n: nat, msg: bytes, r: bytes)
    requires Sound(p) && Core(h, p, n) && n < 6 && msg != [] && msg[0] == FlightType(n)
    requires |h.transcript| + |msg| < MAX_HANDSHAKE
    requires r == WireRecord(p, h.keys, h.version, h.writeGcm, msg, |h.nonces| + 2)
    requires h'.transcript == h.transcript + msg && h'.msgs == h.msgs + [msg] && h'.writeGcm == h.writeGcm
    requires h'.buffer == h.buffer + r && h'.records == h.records + [r] && h'.keys == h.keys && h'.version == h.version
    requires var k := if h.writeGcm then 1 else 0; h'.sendSeq == h.sendSeq + k && h'.ivSeq == h.ivSeq + k
    requires h'.nonces == if h.writeGcm then h.nonces + [Nonce(Fit(h.keys.serverIv, 12), |h.nonces|)] else h.nonces
    ensures Core(h', p, n + 1)
  {
    RecordLength(p, h.keys, h.version, h.writeGcm, msg, |h.nonces| + 2);
    FlattenSnoc(h.msgs, msg);
    FlattenSnoc(h.records, r);
    if h.writeGcm {
      NonceAppended(h.keys.serverIv, h.nonces);
    }
    RecordAppended(p, h.keys, h.version, h.writeGcm, h.msgs, h.records, msg, |h.nonces| + 2);
  }

  /** The earlier prefixes stay, and the new one is everything. */
  lemma SentFrame(msgs: seq<bytes>, msg: bytes, n: nat)
    requires |msgs| == n
    ensures forall k: nat :: k <= n ==> Upto(msgs + [msg], k) == Upto(msgs, k)
    ensures Upto(msgs + [msg], n + 1) == Flatten(msgs + [msg])
  {
    forall k: nat | k <= n
      ensures Upto(msgs + [msg], k) == Upto(msgs, k)
    {
      UptoStable(msgs, msg, k);
    }
    UptoAll(msgs + [msg]);
  }

  lemma NonceAppended(iv: bytes, nonces: seq<bytes>)
    requires NoncesAre(iv, nonces) && |nonces| < 80
    ensures NoncesAre(iv, nonces + [Nonce(Fit(iv, 12), |nonces|)])
  {}

  lemma RecordAppended(p: Prims, keys: HandshakeKeys, version: b2, gcm: bool, msgs: seq<bytes>, records: seq<bytes>,
                       msg: bytes, i: nat)
    requires RecordsAre(p, keys, version, gcm, msgs, records) && 2 <= |msgs| < 80
    requires 2 <= i < 100 && (gcm ==> i == |msgs|)
    ensures RecordsAre(p, keys, version, gcm, msgs + [msg], records + [WireRecord(p, keys, version, gcm, msg, i)])
  {
    assert WireRecord(p, keys, version, gcm, msg, i) == WireRecord(p, keys, version, gcm, msg, |msgs|);
  }

  // ---------------------------------------------------------------- each routine keeps the invariant

  /** ServerHello out, the shared secret requested. */
  function Greeted(h: Hs, raw: bytes, hello: bytes, gcm: bool, version: b2, sigAlg: b2): Hs
  {
    var record := PlainRecord(HANDSHAKE, version, hello);
    h.(state := InHandshake, step := SERVER_HELLO, transcript := raw + hello, msgs := [raw, hello],
       buffer := record, records := [record], pendingGcm := gcm, writeGcm := gcm, version := version,
       sigAlg := sigAlg, sendSeq := 0, held := None, waiting := false, completed := false,
       pendingOp := Some(SharedSecret))
  }

  lemma GreetedEffect(h: Hs, p: Prims, cert: bytes, random: b32)
    requires Inv(h, p, cert) && h.completed && h.step == HELLO_REQUEST && |h.held.value.raw| + 122 < MAX_HANDSHAKE
    ensures var ch := h.held.value;
            var cipher := SelectCipher(ch.suites);
            var hello := ServerHelloMsg(ch.version, random, ch.sessionId, cipher, Fit(h.result.0, 32));
            GetProcessed(h, p, random) == Out(Greeted(h, ch.raw, hello, cipher == GCM_SUITE, ch.version,
                                                      SelectSignatureAlgorithm(ch.sigAlgs)),
                                              Some(SharedSecret), false, None, Continue)
  {
    var h0, ch := h.(pendingOp := None), h.held.value;
    assert h.msgs == [] && h.transcript == [] && h.records == [] && h.buffer == [];
    AnsweredEffect(h0, ch, random);
    var o := HandleClientHello(h0, ch, random);
    assert Resume(h, p, random) == o.(h := o.h.(held := None));
  }

  /** The handler of a ClientHello on a session that has sent nothing yet. */
  lemma AnsweredEffect(h: Hs, ch: ClientHello, random: b32)
    requires h.step == HELLO_REQUEST && h.msgs == [] && h.transcript == [] && h.records == [] && h.buffer == []
    requires |ch.raw| + 122 < MAX_HANDSHAKE
    ensures var cipher := SelectCipher(ch.suites);
            var hello := ServerHelloMsg(ch.version, random, ch.sessionId, cipher, Fit(h.result.0, 32));
            var g := Greeted(h, ch.raw, hello, cipher == GCM_SUITE, ch.version, SelectSignatureAlgorithm(ch.sigAlgs));
            HandleClientHello(h, ch, random) == Out(g.(held := h.held, waiting := true, completed := h.completed),
                                                    Some(SharedSecret), false, None, Continue)
  {
    assert [] + ch.raw == ch.raw && [] + [ch.raw] == [ch.raw];
    var h0 := h.(transcript := ch.raw, msgs := [ch.raw]);
    assert StoreHandshake(h, 1, ch.raw) == h0;
    var hello := HelloFor(ch, random, h.result);
    HelloSent(Chosen(h0, ch), hello, ch.raw);
    var record := PlainRecord(HANDSHAKE, ch.version, hello);
    var h1 := Chosen(h0, ch).(transcript := ch.raw + hello, msgs := [ch.raw, hello],
                              buffer := record, records := [record]);
    assert HandleClientHello(h, ch, random) == Out(Asking(h1), Some(SharedSecret), false, None, Continue);
  }

  lemma HelloSent(h: Hs, hello: bytes, raw: bytes)
    requires h.step == CLIENT_HELLO && h.transcript == raw && h.msgs == [raw] && h.records == [] && h.buffer == []
    requires |hello| == 122 && |raw| + 122 < MAX_HANDSHAKE
    ensures var record := PlainRecord(HANDSHAKE, h.version, hello);
            SendPlain(h, 2, hello) == Some(h.(transcript := raw + hello, msgs := [raw, hello],
                                              buffer := record, records := [record]))
  {
    var record := PlainRecord(HANDSHAKE, h.version, hello);
    assert [raw] + [hello] == [raw, hello] && [] + record == record && [] + [record] == [record];
  }

  lemma GreetedInv(h: Hs, p: Prims, cert: bytes, raw: bytes, hello: bytes, gcm: bool, version: b2, sigAlg: b2)
    requires Inv(h, p, cert) && h.step == HELLO_REQUEST && raw != [] && raw[0] == 1 && |hello| == 122 && hello[0] == 2
    requires |raw| + 122 < MAX_HANDSHAKE
    ensures Inv(Greeted(h, raw, hello, gcm, version, sigAlg), p, cert)
  {
    assert [raw, hello][..1] == [raw] && Flatten([raw]) == raw;
    var record := PlainRecord(HANDSHAKE, version, hello);
    assert Flatten([record]) == record;
    assert Flatten([raw, hello]) == Flatten([raw]) + hello;
  }

  /** The ClientHello and the ServerHello fit the transcript, or the process ends. */
  lemma HelloKeeps(h: Hs, p: Prims, cert: bytes, random: b32)
    requires Inv(h, p, cert) && h.completed && h.step == HELLO_REQUEST
    ensures var o := GetProcessed(h, p, random);
            && o.verdict == (if |h.held.value.raw| + 122 < MAX_HANDSHAKE then Continue else Exit)
            && (o.verdict == Continue ==>
                  && o.submit == Some(SharedSecret) && !o.meta && o.wire == None
                  && Inv(o.h, p, cert) && o.h.step == SERVER_HELLO
                  && o.h.msgs[0] == h.held.value.raw)
  {
    var ch := h.held.value;
    var cipher := SelectCipher(ch.suites);
    var hello := ServerHelloMsg(ch.version, random, ch.sessionId, cipher, Fit(h.result.0, 32));
    if |ch.raw| + 122 < MAX_HANDSHAKE {
      GreetedEffect(h, p, cert, random);
      GreetedInv(h, p, cert, ch.raw, hello, cipher == GCM_SUITE, ch.version, SelectSignatureAlgorithm(ch.sigAlgs));
    } else {
      HelloExits(h, p, cert, random);
    }
  }

  /** What the client reads in the ServerHello: its own session id, its first supported suite, the version it offered
      and the key share that was generated; and what the session goes by from then on. */
  lemma HelloAnswered(h: Hs, p: Prims, cert: bytes, random: b32)
    requires Inv(h, p, cert) && h.completed && h.step == HELLO_REQUEST && |h.held.value.raw| + 122 < MAX_HANDSHAKE
    ensures var ch := h.held.value; var h' := GetProcessed(h, p, random).h; var hello := h'.msgs[1];
            && |hello| == 122 && hello[4..6] == ch.version && hello[6..38] == random && hello[39..71] == ch.sessionId
            && hello[71..73] == SelectCipher(ch.suites) && hello[90..122] == Fit(h.result.0, 32)
            && (h'.pendingGcm <==> hello[71..73] == GCM_SUITE) && h'.version == ch.version
            && (h'.sigAlg == [4, 3] <==> [4, 3] in ch.sigAlgs)
  {
    var ch := h.held.value;
    GreetedEffect(h, p, cert, random);
    ServerHelloReadsBack(ch.version, random, ch.sessionId, SelectCipher(ch.suites), Fit(h.result.0, 32));
  }

  lemma HelloExits(h: Hs, p: Prims, cert: bytes, random: b32)
    requires Inv(h, p, cert) && h.completed && h.step == HELLO_REQUEST && |h.held.value.raw| + 122 >= MAX_HANDSHAKE
    ensures GetProcessed(h, p, random).verdict == Exit
  {
    var ch := h.held.value;
    assert h.transcript == [];
    assert HandleClientHello(h.(pendingOp := None), ch, random).verdict == Exit;
  }

  lemma SharedKeeps(h: Hs, p: Prims, cert: bytes, random: b32)
    requires Inv(h, p, cert) && h.completed && h.step == SERVER_HELLO
    ensures var o := GetProcessed(h, p, random);
            && o.verdict == Continue && o == Quiet(o.h) && Inv(o.h, p, cert) && o.h.keyCalc && o.h.step == h.step
            && o.h.dhe == Fit(h.result.0, 32)
  {
    UptoAll(h.msgs);
    var h' := GetProcessed(h, p, random).h;
    KeysAreRfc(p, h'.dhe, h.transcript);
    assert RecordsAre(p, h'.keys, h.version, h.writeGcm, h.msgs, h.records) by {
      assert h.records[0] == WireRecord(p, h.keys, h.version, h.writeGcm, h.msgs[1], 1);
    }
  }

  /** The code's order of derivation gives the RFC's handshake keys. */
  lemma KeysAreRfc(p: Prims, dhe: bytes, hellos: bytes)
    ensures KeysFromSecret(p, dhe, p.sha(hellos)) == RfcHandshakeKeys(p, dhe, hellos)
  {}

  /** The code's verify_data is that of section 4.4.4 of RFC 8446. */
  lemma VerifyDataIsRfc(p: Prims, secret: bytes, messages: bytes)
    ensures VerifyData(p, secret, messages) == FinishedMac(p, secret, messages)
  {}

  lemma SignKeeps(h: Hs, p: Prims, cert: bytes, random: b32)
    requires Inv(h, p, cert) && h.completed && h.step == CERTIFICATE
    ensures var o := GetProcessed(h, p, random);
            && o.verdict == Continue && o == Quiet(o.h) && Inv(o.h, p, cert) && o.h.signed && o.h.step == h.step
            && o.h.signature == Der.DerSignature(h.result.0, h.result.1)
  {}

  /** EncryptedExtensions then Certificate. */
  lemma TwoSends(h: Hs, p: Prims, cert: bytes, ee: bytes, c: bytes)
    requires Sound(p) && Inv(h, p, cert) && h.step == SERVER_HELLO && h.keyCalc
    requires ee == EncryptedExtensionsMsg() && c == CertificateMsg(cert)
    requires |h.transcript| + |ee| + |c| < MAX_HANDSHAKE
    ensures SendSealed(h, p, 8, ee).Some?
    ensures var h1 := SendSealed(h, p, 8, ee).value.(step := ENCRYPTED_EXTENSIONS);
            && SendSealed(h1, p, 11, c).Some?
            && var h2 := SendSealed(h1, p, 11, c).value;
            Inv(Submit(h2.(step := CERTIFICATE, uses := h2.uses.(certVerify := Some(h2.transcript))), Signature),
                p, cert)
  {
    SentAdvances(h, p, 2, 8, ee);
    var h1 := SendSealed(h, p, 8, ee).value.(step := ENCRYPTED_EXTENSIONS);
    assert |h1.transcript| == |h.transcript| + |ee| by { SendSealedEffect(h, p, 8, ee); }
    SentAdvances(h1, p, 3, 11, c);
    CertificatesDone(h, p, cert, ee, h1, c, SendSealed(h1, p, 11, c).value);
  }

  /** Assembling the invariant once both messages are out. */
  lemma CertificatesDone(h: Hs, p: Prims, cert: bytes, ee: bytes, h1: Hs, c: bytes, h2: Hs)
    requires Inv(h, p, cert) && h.step == SERVER_HELLO && h.keyCalc
    requires ee == EncryptedExtensionsMsg() && c == CertificateMsg(cert)
    requires Sent(h, h1.(step := SERVER_HELLO), 2, ee) && Sent(h1, h2, 3, c) && Core(h2, p, 4)
    ensures Inv(Submit(h2.(step := CERTIFICATE, uses := h2.uses.(certVerify := Some(h2.transcript))), Signature),
                p, cert)
  {
    assert Upto(h2.msgs, 2) == Upto(h1.msgs, 2) == Upto(h.msgs, 2);
  }

  /** Two messages that do not both fit. */
  lemma TwoSendsExit(h: Hs, p: Prims, n: nat, t1: byte, m1: bytes, step: int, t2: byte, m2: bytes, uses: Uses)
    requires Sound(p) && Core(h, p, n) && n < 5
    requires t1 > h.step && m1 != [] && m1[0] == FlightType(n) && t2 > step && m2 != [] && m2[0] == FlightType(n + 1)
    requires |h.transcript| + |m1| + |m2| >= MAX_HANDSHAKE
    ensures var o := SendSealed(h, p, t1, m1);
            o.Some? ==> SendSealed(o.value.(step := step, uses := uses), p, t2, m2).None?
  {
    SendAdvances(h, p, n, t1, m1);
    if SendSealed(h, p, t1, m1).Some? {
      SendSealedEffect(h, p, t1, m1);
      SendAdvances(SendSealed(h, p, t1, m1).value.(step := step, uses := uses), p, n + 1, t2, m2);
    }
  }

  /** EncryptedExtensions and Certificate fit the transcript, or the process ends. */
  lemma CertsKeep(h: Hs, p: Prims, cert: bytes)
    requires Sound(p) && Inv(h, p, cert) && h.step == SERVER_HELLO && h.keyCalc
    ensures var o := SendCertificates(h, p, cert);
            && (o.Some? <==> |h.transcript| + |cert| + 19 < MAX_HANDSHAKE)
            && (o.Some? ==>
                  Inv(o.value, p, cert) && o.value.step == CERTIFICATE && o.value.pendingOp == Some(Signature))
  {
    var ee, c := EncryptedExtensionsMsg(), CertificateMsg(cert);
    if |h.transcript| + |cert| + 19 < MAX_HANDSHAKE {
      TwoSends(h, p, cert, ee, c);
    } else {
      TwoSendsExit(h, p, 2, 8, ee, ENCRYPTED_EXTENSIONS, 11, c, h.uses);
      if SendSealed(h, p, 8, ee).Some? {
        SendSealedEffect(h, p, 8, ee);
      }
    }
  }

  /** The stored handshake secret leads to the RFC's application keys. */
  lemma AppKeysAreRfc(p: Prims, dhe: bytes, hellos: bytes, messages: bytes)
    ensures AppKeysFromSecret(p, RfcHandshakeKeys(p, dhe, hellos).secret, p.sha(messages))
            == RfcAppKeys(p, dhe, messages)
  {}

  /** CertificateVerify and Finished fit the transcript, or the process ends. */
  lemma FinishKeeps(h: Hs, p: Prims, cert: bytes)
    requires Sound(p) && Inv(h, p, cert) && h.step == CERTIFICATE && h.signed
    ensures var o := SendVerifyAndFinished(h, p);
            && (o.Some? <==> |h.transcript| + |h.signature| + 60 < MAX_HANDSHAKE)
            && (o.Some? ==> Inv(o.value, p, cert) && o.value.step == CERTIFICATE_VERIFY && !o.value.released)
  {
    if |h.transcript| + |h.signature| + 60 < MAX_HANDSHAKE {
      FinishFits(h, p, cert);
    } else {
      FinishExits(h, p, cert);
    }
  }

  lemma FinishExits(h: Hs, p: Prims, cert: bytes)
    requires Sound(p) && Inv(h, p, cert) && h.step == CERTIFICATE
             && |h.transcript| + |h.signature| + 60 >= MAX_HANDSHAKE
    ensures SendVerifyAndFinished(h, p).None?
  {
    var cv := CertificateVerifyMsg(h.sigAlg, h.signature);
    SendAdvances(h, p, 4, 15, cv);
    if SendSealed(h, p, 15, cv).Some? {
      SendSealedEffect(h, p, 15, cv);
      var h1 := SendSealed(h, p, 15, cv).value.(step := CERTIFICATE_VERIFY);
      var sf := FinishedMsg(FinishedMac(p, h1.keys.serverSecret, h1.transcript));
      SendAdvances(h1.(uses := h1.uses.(serverFin := Some(h1.transcript))), p, 5, 20, sf);
    }
  }

  lemma FinishFits(h: Hs, p: Prims, cert: bytes)
    requires Sound(p) && Inv(h, p, cert) && h.step == CERTIFICATE && h.signed
    requires |h.transcript| + |h.signature| + 60 < MAX_HANDSHAKE
    ensures var o := SendVerifyAndFinished(h, p);
            o.Some? && Inv(o.value, p, cert) && o.value.step == CERTIFICATE_VERIFY && !o.value.released
  {
    var cv := CertificateVerifyMsg(h.sigAlg, h.signature);
    SentAdvances(h, p, 4, 15, cv);
    var h1 := SendSealed(h, p, 15, cv).value.(step := CERTIFICATE_VERIFY);
    assert |h1.transcript| == |h.transcript| + |cv| by { SendSealedEffect(h, p, 15, cv); }
    var mac := FinishedMac(p, h1.keys.serverSecret, h1.transcript);
    assert |mac| == 48;
    var sf := FinishedMsg(mac);
    var h2 := h1.(uses := h1.uses.(serverFin := Some(h1.transcript)));
    SentAdvances(h2, p, 5, 20, sf);
    FlightDone(h, p, cert, cv, h1, sf, SendSealed(h2, p, 20, sf).value);
  }

  /** The same for the second pair. */
  lemma FlightDone(h: Hs, p: Prims, cert: bytes, cv: bytes, h1: Hs, sf: bytes, h3: Hs)
    requires Inv(h, p, cert) && h.step == CERTIFICATE && h.signed
    requires cv == CertificateVerifyMsg(h.sigAlg, h.signature)
    requires sf == FinishedMsg(FinishedMac(p, h.keys.serverSecret, h1.transcript)) && |sf| == 52
    requires Sent(h, h1.(step := CERTIFICATE), 4, cv) && h1.step == CERTIFICATE_VERIFY
    requires Sent(h1.(uses := h1.uses.(serverFin := Some(h1.transcript))), h3, 5, sf) && Core(h3, p, 6)
    ensures Inv(CalculateVerifyData(CalculateAppKeys(h3, p), p), p, cert)
  {
    assert Upto(h3.msgs, 2) == Upto(h1.msgs, 2) == Upto(h.msgs, 2);
    assert Upto(h3.msgs, 4) == Upto(h1.msgs, 4) == Upto(h.msgs, 4);
    assert Upto(h3.msgs, 5) == Upto(h1.msgs, 5) == h1.transcript;
    if h.pendingGcm {
      AppKeysAreRfc(p, h.dhe, Upto(h.msgs, 2), h3.transcript);
    }
  }

  /** The release keeps the invariant exactly when the flight fits server_records. */
  lemma ReleaseKeeps(h: Hs, p: Prims, cert: bytes)
    requires Inv(h, p, cert) && h.step == CERTIFICATE_VERIFY
    ensures Inv(Release(h), p, cert) <==> |h.buffer| <= SERVER_RECORDS
  {
    assert Bounded(h.transcript, [], |h.records|, true, h.buffer) <==> |h.buffer| <= SERVER_RECORDS;
  }

  // ---------------------------------------------------------------- records from the client

  /** Clients send ChangeCipherSpec and protected records only after the server's flight
      (Appendix D.4 of RFC 8446), and a record parsed as a ClientHello starts with its type. */
  predicate Ordered(h: Hs, r: Rec)
  {
    && (r.CcsRec? || r.DataRec? ==> h.released)
    && (r.HelloRec? ==> IsHello(r.ch))
  }

  ghost predicate ReadOutcome(h: Hs, p: Prims, cert: bytes, o: Out)
  {
    && o.verdict != Exit
    && (o.verdict == Continue ==> Inv(o.h, p, cert))
    && (o.submit.Some? ==>
          && o.submit == Some(KeyGen) && o.verdict == Continue
          && h.pendingOp.None? && o.h.pendingOp == o.submit && !o.h.completed)
    && (o.submit.None? && o.verdict == Continue ==> o.h.pendingOp == h.pendingOp && o.h.completed == h.completed)
    && (o.meta ==> h.step == CERTIFICATE_VERIFY && o.h.(recvQ := h.recvQ) == h)
  }

  /** After the release only handshake_state, the session state and the read cipher still move. */
  lemma LateKeeps(h: Hs, p: Prims, cert: bytes, step: int, state: SslState, accepted: Option<bytes>, readGcm: bool)
    requires Inv(h, p, cert) && h.released
    requires step == FINISHED || step == CLIENT_CIPHER_SPEC
    requires state.Active? <==> accepted.Some?
    requires accepted.Some? ==> accepted.value == Fit(h.vd, 48)
    requires step == CLIENT_CIPHER_SPEC || state.Active? ==> readGcm == h.pendingGcm
    ensures Inv(h.(step := step, state := state, accepted := accepted, readGcm := readGcm), p, cert)
  {}

  /** The verify_data section 4.4.4 of RFC 8446 asks of the client. */
  function ClientVerifyData(h: Hs, p: Prims): bytes
  {
    FinishedMac(p, h.keys.clientSecret, Flatten(h.msgs))
  }

  /** A client Finished behind the ChangeCipherSpec makes the session active exactly with the verify_data of the RFC
      over all six messages, and aborts it otherwise; before the ChangeCipherSpec it is passed over. */
  ghost predicate Decides(h: Hs, p: Prims, verifyData: bytes, o: Out)
  {
    && (h.step == FINISHED ==> o == Quiet(h))
    && (h.step == CLIENT_CIPHER_SPEC ==>
          && (o.verdict == Abort <==> verifyData != ClientVerifyData(h, p))
          && (o.verdict != Abort ==> o == Quiet(h.(step := FINISHED, state := Active, accepted := Some(verifyData)))))
  }

  lemma FinishedKeeps(h: Hs, p: Prims, cert: bytes, verifyData: bytes)
    requires Sound(p) && Inv(h, p, cert) && h.released
    ensures ReadOutcome(h, p, cert, HandleFinished(h, verifyData))
    ensures Decides(h, p, verifyData, HandleFinished(h, verifyData))
  {
    FinishedOutcome(h, p, cert, verifyData);
    UptoAll(h.msgs);
    assert |h.vd| == 48;
  }

  lemma FinishedOutcome(h: Hs, p: Prims, cert: bytes, verifyData: bytes)
    requires Inv(h, p, cert) && h.released
    ensures ReadOutcome(h, p, cert, HandleFinished(h, verifyData))
  {
    if h.step < FINISHED && verifyData == Fit(h.vd, 48) {
      LateKeeps(h, p, cert, FINISHED, Active, Some(verifyData), h.readGcm);
    }
  }

  /** What the session reads in an application-data record: its body, or what the client's handshake key opens. */
  function Content(h: Hs, p: Prims, r: Rec): Option<bytes>
    requires r.DataRec?
  {
    if h.pendingGcm then p.open(h.keys.clientKey, Nonce(Fit(h.keys.clientIv, 12), 0), r.header, r.body)
    else Some(r.body)
  }

  /** The record carries a handshake message. */
  predicate IsHandshake(content: Option<bytes>)
  {
    content.Some? && content.value != [] && content.value[|content.value| - 1] == HANDSHAKE
  }

  /** The verify_data of a handshake message taken for a Finished; a short one is read on into the zeroes behind. */
  function VerifyDataIn(content: bytes): bytes
  {
    (content + Zeros(52))[4..52]
  }

  /** What an application-data record does behind the client's ChangeCipherSpec: a handshake message aborts the session
      or makes it active, by its verify_data alone; everything else is passed over. */
  lemma ClientFinishedIff(h: Hs, p: Prims, cert: bytes, r: Rec)
    requires Sound(p) && Inv(h, p, cert) && h.step == CLIENT_CIPHER_SPEC && !h.state.Active? && r.DataRec?
    ensures var o := Arrive(h, p, r); var content := Content(h, p, r);
            if !IsHandshake(content) then o == Quiet(h)
            else
              && (o.verdict == Abort <==> VerifyDataIn(content.value) != ClientVerifyData(h, p))
              && (o.verdict != Abort ==> o.verdict == Continue && o.h.state.Active? && Inv(o.h, p, cert))
  {
    var o, content := Arrive(h, p, r), Content(h, p, r);
    assert o == ProcessRead(h, p, r);
    if IsHandshake(content) {
      FinishedKeeps(h, p, cert, VerifyDataIn(content.value));
      assert o == HandleInner(h, content.value) == HandleFinished(h, VerifyDataIn(content.value));
    }
  }

  lemma InnerKeeps(h: Hs, p: Prims, cert: bytes, content: bytes)
    requires Inv(h, p, cert) && h.released
    ensures ReadOutcome(h, p, cert, HandleInner(h, content))
  {
    if content != [] && content[|content| - 1] == HANDSHAKE {
      FinishedOutcome(h, p, cert, (content + Zeros(52))[4..52]);
    } else {
      assert HandleInner(h, content) == Quiet(h);
    }
  }

  lemma DataKeeps(h: Hs, p: Prims, cert: bytes, header: bytes, body: bytes)
    requires Inv(h, p, cert) && h.released
    ensures ReadOutcome(h, p, cert, ProcessRead(h, p, DataRec(header, body)))
  {
    var o := ProcessRead(h, p, DataRec(header, body));
    var clear := p.open(h.keys.clientKey, Nonce(Fit(h.keys.clientIv, 12), 0), header, body);
    if !h.readGcm {
      InnerKeeps(h, p, cert, body);
      assert o == HandleInner(h, body);
    } else if h.state.Active? || clear.None? {
      assert o == Quiet(h);
    } else {
      InnerKeeps(h, p, cert, clear.value);
      assert o == HandleInner(h, clear.value);
    }
  }

  lemma CcsKeeps(h: Hs, p: Prims, cert: bytes)
    requires Inv(h, p, cert) && h.released
    ensures ReadOutcome(h, p, cert, ProcessRead(h, p, CcsRec))
    ensures ProcessRead(h, p, CcsRec) ==
            if h.step == FINISHED && (h.readGcm ==> h.state.Active?)
            then Quiet(h.(step := CLIENT_CIPHER_SPEC, readGcm := h.pendingGcm)) else Quiet(h)
  {
    var o := ProcessRead(h, p, CcsRec);
    if h.step == FINISHED && !(h.readGcm && !h.state.Active?) {
      LateKeeps(h, p, cert, CLIENT_CIPHER_SPEC, h.state, h.accepted, h.pendingGcm);
      assert o == Quiet(h.(step := CLIENT_CIPHER_SPEC, readGcm := h.pendingGcm));
    } else {
      assert o == Quiet(h);
    }
  }

  lemma HelloHeld(h: Hs, p: Prims, cert: bytes, ch: ClientHello)
    requires Inv(h, p, cert) && h.step == HELLO_REQUEST && !h.waiting && IsHello(ch)
    ensures ReadOutcome(h, p, cert, GenerateKeyPair(h, ch))
  {}

  /** A repeated ClientHello, or any handshake record behind the first, changes nothing. It brings the key meta again
      exactly while the flight waits for the host, and the whole flight again exactly when it went out and the
      client's ChangeCipherSpec has not come. */
  lemma RepeatedHello(h: Hs, p: Prims, cert: bytes, r: Rec)
    requires Inv(h, p, cert) && !h.waiting && h.step != HELLO_REQUEST && (r.HelloRec? || r.HandshakeRec?)
    ensures Arrive(h, p, r) == Out(h, None, h.step == CERTIFICATE_VERIFY,
                                   if h.step == FINISHED then Some(Flatten(h.records)) else None, Continue)
  {}

  lemma HandshakeKeeps(h: Hs, p: Prims, cert: bytes, r: Rec)
    requires Inv(h, p, cert) && !h.waiting && Ordered(h, r) && (r.HelloRec? || r.HandshakeRec? || r.AlertRec?)
    ensures ReadOutcome(h, p, cert, ProcessRead(h, p, r))
  {
    if h.step == HELLO_REQUEST && r.HelloRec? {
      HelloHeld(h, p, cert, r.ch);
    } else {
      assert ProcessRead(h, p, r).h == h;
    }
  }

  /** What ends a session: a server's message where a ClientHello belongs, a fatal or closing alert in the clear, any
      alert once it is active and encrypted, and a Finished with the wrong verify_data. */
  predicate Aborts(h: Hs, p: Prims, r: Rec)
  {
    || (r.HandshakeRec? && h.step == HELLO_REQUEST && Unexpected(r.msgType))
    || (r.AlertRec? && if h.readGcm then h.state.Active? else r.level == 2 || r.description == 0)
    || (r.DataRec? && h.step == CLIENT_CIPHER_SPEC && !(h.pendingGcm && h.state.Active?)
        && IsHandshake(Content(h, p, r)) && VerifyDataIn(Content(h, p, r).value) != ClientVerifyData(h, p))
  }

  lemma AbortIff(h: Hs, p: Prims, cert: bytes, r: Rec)
    requires Sound(p) && Inv(h, p, cert) && !h.waiting && Ordered(h, r)
    ensures Arrive(h, p, r).verdict == Abort <==> Aborts(h, p, r)
  {
    if r.CcsRec? {
      CcsKeeps(h, p, cert);
    } else if r.DataRec? {
      DataAborts(h, p, cert, r);
    }
  }

  lemma DataAborts(h: Hs, p: Prims, cert: bytes, r: Rec)
    requires Sound(p) && Inv(h, p, cert) && !h.waiting && h.released && r.DataRec?
    ensures Arrive(h, p, r).verdict == Abort <==> Aborts(h, p, r)
  {
    var o := ProcessRead(h, p, r);
    var clear := p.open(h.keys.clientKey, Nonce(Fit(h.keys.clientIv, 12), 0), r.header, r.body);
    if !h.readGcm {
      InnerAborts(h, p, cert, r.body);
      assert o == HandleInner(h, r.body);
    } else if h.state.Active? || clear.None? {
      assert o == Quiet(h);
    } else {
      InnerAborts(h, p, cert, clear.value);
      assert o == HandleInner(h, clear.value);
    }
  }

  lemma InnerAborts(h: Hs, p: Prims, cert: bytes, content: bytes)
    requires Sound(p) && Inv(h, p, cert) && h.released
    ensures HandleInner(h, content).verdict == Abort <==>
            && h.step == CLIENT_CIPHER_SPEC && IsHandshake(Some(content))
            && VerifyDataIn(content) != ClientVerifyData(h, p)
  {
    if IsHandshake(Some(content)) {
      FinishedKeeps(h, p, cert, VerifyDataIn(content));
      assert HandleInner(h, content) == HandleFinished(h, VerifyDataIn(content));
    } else {
      assert HandleInner(h, content) == Quiet(h);
    }
  }

  lemma ReadKeeps(h: Hs, p: Prims, cert: bytes, r: Rec)
    requires Inv(h, p, cert) && !h.waiting && Ordered(h, r)
    ensures ReadOutcome(h, p, cert, ProcessRead(h, p, r))
  {
    match r
    case CcsRec => CcsKeeps(h, p, cert);
    case DataRec(header, body) => DataKeeps(h, p, cert, header, body);
    case _ => HandshakeKeeps(h, p, cert, r);
  }

  lemma {:induction false} NoSuiteSupported(suites: seq<b2>)
    requires forall i :: 0 <= i < |suites| ==> !Supported(suites[i])
    ensures SelectCipher(suites) == [0, 0]
  {
    if suites != [] {
      NoSuiteSupported(suites[1..]);
    }
  }

  /** The suite that decides between sealed and plain records is the client's first supported one. */
  lemma {:induction false} CipherIsFirstSupported(suites: seq<b2>, k: nat)
    requires k < |suites| && Supported(suites[k]) && forall i :: 0 <= i < k ==> !Supported(suites[i])
    ensures SelectCipher(suites) == suites[k]
    decreases k
  {
    if k > 0 {
      CipherIsFirstSupported(suites[1..], k - 1);
    }
  }
}
