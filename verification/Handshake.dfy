/** The TLS side of a NIC session (ssl_session_t): handshake_state, the transcript buffer, the send
    buffer and record sequence numbers, the key schedule and the outstanding PKA request.
    Each function is one routine of ssl.c; `Out` carries what the routine asks of its surroundings. */
module Handshake {
  import opened Bytes
  import opened Hkdf
  import opened Tls
  import Der

  datatype SslState = Init | InHandshake | Active
  datatype Opcode = KeyGen | SharedSecret | Signature

  type u64 = x: int | 0 <= x < TWO32 * TWO32

  /** A parsed ClientHello. `raw` is the handshake message; `supported` says that the record carried
      version 3.1 and an extension block, without which the code never starts the key exchange. */
  datatype ClientHello = ClientHello(raw: bytes, supported: bool, version: b2, sessionId: b32,
                                     suites: seq<b2>, sigAlgs: seq<b2>)

  predicate IsHello(ch: ClientHello)
  {
    ch.raw != [] && ch.raw[0] == 1
  }

  /** A complete record from the client. */
  datatype Rec =
    | HelloRec(ch: ClientHello)
    | HandshakeRec(msgType: byte)
    | CcsRec
    | AlertRec(level: byte, description: byte)
    | DataRec(header: bytes, body: bytes)

  /** What SHA-384 was applied to the transcript buffer for, and what the buffer held. */
  datatype Uses = Uses(hsKeys: Option<bytes>, certVerify: Option<bytes>, serverFin: Option<bytes>,
                       appKeys: Option<bytes>, clientFin: Option<bytes>)

  datatype Hs = Hs(
    state: SslState,
    step: int,                    // handshake_state
    recvQ: seq<Rec>,
    transcript: bytes,            // handshake_msgs[..handshake_msgs_len]
    msgs: seq<bytes>,             // the messages appended to it, in order
    buffer: bytes,                // send_buffer[..send_buffer_offset]
    records: seq<bytes>,          // the records appended to it, in order
    serverRecords: bytes,
    sendSeq: u64,                 // send_seq_num_
    ivSeq: u64,                   // server_write_IV_seq_num
    nonces: seq<bytes>,           // nonces given to AES-GCM under the server handshake key, in order
    pendingGcm: bool,             // pending_sp carries TLS_AES_256_GCM_SHA384
    writeGcm: bool,
    readGcm: bool,
    version: b2,
    sigAlg: b2,
    held: Option<ClientHello>,    // the record the key-generation request keeps
    waiting: bool,                // waiting_crypto
    completed: bool,              // completed_crypto
    pendingOp: Option<Opcode>,    // pending_pka_op
    result: (Der.Operand, Der.Operand),
    dhe: bytes,
    keyCalc: bool,                // handshake_key_calculated
    signed: bool,                 // cert_signatured
    signature: bytes,
    keys: HandshakeKeys,
    app: AppKeys,
    vd: bytes,                    // calculated_vd
    uses: Uses,
    released: bool,               // the server flight went out
    accepted: Option<bytes>)      // the client verify_data that compared equal

  /** Exit: the process ends in exit() or a failed assertion, or has written past the end of an array, after
      which the code promises nothing. */
  datatype Verdict = Continue | Abort | Exit

  datatype Out = Out(h: Hs, submit: Option<Opcode>, meta: bool, wire: Option<bytes>, verdict: Verdict)

  function Quiet(h: Hs): Out { Out(h, None, false, None, Continue) }

  const NO_KEYS := HandshakeKeys([], [], [], [], [], [], [])
  const NO_APP := AppKeys([], [], [], [])
  const NO_USES := Uses(None, None, None, None, None)

  /** clear_ssl_session; server_records survives it. */
  function Cleared(serverRecords: bytes): Hs
  {
    Hs(Init, HELLO_REQUEST, [], [], [], [], [], serverRecords, 0, 0, [], false, false, false, [0, 0], [0, 0], None,
       false, false, None, ([], []), [], false, false, [], NO_KEYS, NO_APP, [], NO_USES, false, None)
  }

  function Fit(b: bytes, n: nat): (r: bytes)
    ensures |r| == n
    ensures |b| == n ==> r == b
  {
    (b + Zeros(n))[..n]
  }

  // ---------------------------------------------------------------- sending

  const MAX_HANDSHAKE: nat := 4096      // handshake_msgs
  const SEND_BUFFER: nat := 16061       // send_buffer
  const SERVER_RECORDS: nat := 1024     // server_records

  /** The assertion of store_handshake: the transcript with the message stays below its array's size. */
  predicate Fits(h: Hs, msgType: byte, msg: bytes)
  {
    msgType > h.step ==> |h.transcript| + |msg| < MAX_HANDSHAKE
  }

  /** store_handshake: a message whose type is not above handshake_state is not appended. */
  function StoreHandshake(h: Hs, msgType: byte, msg: bytes): Hs
  {
    var stored := msgType > h.step;
    h.(transcript := if stored then h.transcript + msg else h.transcript,
       msgs := if stored then h.msgs + [msg] else h.msgs)
  }

  /** The tail of send_record: the finished record joins the send buffer. */
  function Enqueue(h: Hs, record: bytes): Hs
  {
    h.(buffer := h.buffer + record, records := h.records + [record])
  }

  predicate Room(h: Hs, record: bytes)
  {
    |h.buffer| + |record| <= SEND_BUFFER
  }

  /** send_handshake: the message leaves in a plaintext handshake record. */
  function SendPlain(h: Hs, msgType: byte, msg: bytes): Option<Hs>
  {
    var record := PlainRecord(HANDSHAKE, h.version, msg);
    if !Fits(h, msgType, msg) || !Room(h, record) then None
    else Some(Enqueue(StoreHandshake(h, msgType, msg), record))
  }

  /** send_handshake_tls13: sealed under the server handshake key once write_sp has a cipher.
      None is an exit: "Something wrong with sequence number!", or one of the two arrays is full. */
  function SendSealed(h: Hs, p: Prims, msgType: byte, msg: bytes): Option<Hs>
  {
    var nonce := Nonce(Fit(h.keys.serverIv, 12), h.sendSeq);
    var record := if h.writeGcm then SealedRecord(p, h.keys.serverKey, nonce, h.version, msg)
                  else PlainRecord(APPLICATION_DATA, h.version, msg + [HANDSHAKE]);
    var next := if h.writeGcm then (h.sendSeq + 1) % (TWO32 * TWO32) else h.sendSeq;
    if !Fits(h, msgType, msg) || (h.writeGcm && h.ivSeq != h.sendSeq) || !Room(h, record) then None
    else
      Some(Enqueue(StoreHandshake(h, msgType, msg), record)
             .(nonces := if h.writeGcm then h.nonces + [nonce] else h.nonces,
               sendSeq := next,
               ivSeq := if h.writeGcm then next else h.ivSeq))
  }

  /** submit_pka_request and the three assignments after it. */
  function Submit(h: Hs, op: Opcode): Hs
  {
    h.(waiting := true, pendingOp := Some(op))
  }

  // ---------------------------------------------------------------- ClientHello

  const GCM_SUITE: b2 := [0x13, 0x02]

  predicate Supported(suite: b2)
  {
    suite == [0x13, 0x02] || suite == [0x00, 0x9d] || suite == [0x00, 0x35]
  }

  /** select_cipher: the client's first suite that the NIC supports. */
  function SelectCipher(suites: seq<b2>): b2
  {
    if suites == [] then [0, 0]
    else if Supported(suites[0]) then suites[0]
    else SelectCipher(suites[1..])
  }

  function SelectSignatureAlgorithm(algs: seq<b2>): b2
  {
    if [4, 3] in algs then [4, 3] else [0, 0]
  }

  /** generate_ecdhe_key_pair */
  function GenerateKeyPair(h: Hs, ch: ClientHello): Out
  {
    Out(Submit(h.(held := Some(ch)), KeyGen), Some(KeyGen), false, None, Continue)
  }

  /** What the session takes from the ClientHello. */
  function Chosen(h: Hs, ch: ClientHello): Hs
  {
    h.(state := InHandshake, step := CLIENT_HELLO, pendingGcm := SelectCipher(ch.suites) == GCM_SUITE,
       sigAlg := SelectSignatureAlgorithm(ch.sigAlgs), version := ch.version)
  }

  /** The ServerHello, with the key share that was generated. */
  function HelloFor(ch: ClientHello, random: b32, result: (Der.Operand, Der.Operand)): (m: bytes)
    ensures |m| == 122 && m[0] == 2
  {
    ServerHelloMsg(ch.version, random, ch.sessionId, SelectCipher(ch.suites), Fit(result.0, 32))
  }

  /** The ServerHello is out: the shared secret is requested and the write cipher installed. */
  function Asking(h: Hs): Hs
  {
    h.(step := SERVER_HELLO, waiting := true, pendingOp := Some(SharedSecret), writeGcm := h.pendingGcm, sendSeq := 0)
  }

  /** handle_handshake for a ClientHello, run when the key pair is ready. */
  function HandleClientHello(h: Hs, ch: ClientHello, random: b32): Out
  {
    var h0 := StoreHandshake(h, 1, ch.raw);
    if !Fits(h, 1, ch.raw) then Quiet(h).(verdict := Exit)
    else if h0.step >= CLIENT_HELLO then Quiet(h0)
    else
      match SendPlain(Chosen(h0, ch), 2, HelloFor(ch, random, h.result))
      case None => Quiet(h).(verdict := Exit)
      case Some(h1) => Out(Asking(h1), Some(SharedSecret), false, None, Continue)
  }

  // ---------------------------------------------------------------- resumption after a PKA result

  /** The handshake keys in the order the code computes them, from the hash of the transcript buffer. */
  function KeysFromSecret(p: Prims, shared: bytes, helloHash: bytes): HandshakeKeys
  {
    var early := HkdfExtract(p.hmac, Zeros(48), Zeros(48));
    var derived := p.expand(early, Derived, p.sha([]), 48);
    var secret := HkdfExtract(p.hmac, derived, shared);
    var client := p.expand(secret, ClientHs, helloHash, 48);
    var server := p.expand(secret, ServerHs, helloHash, 48);
    HandshakeKeys(secret, client, server,
                  p.expand(client, Key, [], 32), p.expand(server, Key, [], 32),
                  p.expand(client, Iv, [], 12), p.expand(server, Iv, [], 12))
  }

  /** The application keys, from the stored handshake secret. */
  function AppKeysFromSecret(p: Prims, handshakeSecret: bytes, handshakeHash: bytes): AppKeys
  {
    var derived := p.expand(handshakeSecret, Derived, p.sha([]), 48);
    var master := HkdfExtract(p.hmac, derived, Zeros(48));
    var client := p.expand(master, ClientAp, handshakeHash, 48);
    var server := p.expand(master, ServerAp, handshakeHash, 48);
    AppKeys(p.expand(client, Key, [], 32), p.expand(server, Key, [], 32),
            p.expand(client, Iv, [], 12), p.expand(server, Iv, [], 12))
  }

  /** verify_data as send_server_finished and handle_verify_data_calculation compute it: the key, the hash of the
      transcript buffer, the HMAC. */
  function VerifyData(p: Prims, secret: bytes, transcript: bytes): bytes
  {
    var finishedKey := p.expand(secret, FinishedKey, [], 48);
    var hash := p.sha(transcript);
    p.hmac(finishedKey, hash)
  }

  /** handle_after_ecdhe_shared_secret_calc */
  function AfterSharedSecret(h: Hs, p: Prims): Hs
  {
    var dhe := Fit(h.result.0, 32);
    h.(keyCalc := true, dhe := dhe,
       keys := if h.pendingGcm then KeysFromSecret(p, dhe, p.sha(h.transcript)) else h.keys,
       uses := if h.pendingGcm then h.uses.(hsKeys := Some(h.transcript)) else h.uses)
  }

  /** handle_after_ecdsa_signature */
  function AfterSignature(h: Hs): Hs
  {
    h.(signature := Der.DerSignature(h.result.0, h.result.1), signed := true)
  }

  /** handle_completed_pka, the part that touches the session. */
  function PostResult(h: Hs, result: (Der.Operand, Der.Operand)): Hs
  {
    h.(completed := true, result := result)
  }

  /** get_processed_crypto up to the point where the flags are cleared: the branch is chosen by
      handshake_state, never by the opcode. */
  function Resume(h: Hs, p: Prims, random: b32): Out
  {
    if h.step == HELLO_REQUEST && h.held.Some? then
      var o := HandleClientHello(h.(pendingOp := None), h.held.value, random);
      o.(h := o.h.(held := None))
    else if h.step == SERVER_HELLO then Quiet(AfterSharedSecret(h.(pendingOp := None), p))
    else if h.step == CERTIFICATE then Quiet(AfterSignature(h.(pendingOp := None)))
    else Quiet(h).(verdict := Exit)
  }

  function ClearFlags(h: Hs): Hs
  {
    h.(waiting := false, completed := false)
  }

  /** get_processed_crypto */
  function GetProcessed(h: Hs, p: Prims, random: b32): Out
  {
    if !h.completed then Quiet(h)
    else
      var o := Resume(h, p, random);
      if o.verdict.Continue? then o.(h := ClearFlags(o.h)) else o
  }

  // ---------------------------------------------------------------- the server flight

  /** handle_app_keys_calculation */
  function CalculateAppKeys(h: Hs, p: Prims): Hs
  {
    h.(app := if h.pendingGcm then AppKeysFromSecret(p, h.keys.secret, p.sha(h.transcript)) else h.app,
       uses := if h.pendingGcm then h.uses.(appKeys := Some(h.transcript)) else h.uses)
  }

  /** handle_verify_data_calculation */
  function CalculateVerifyData(h: Hs, p: Prims): Hs
  {
    h.(vd := VerifyData(p, h.keys.clientSecret, h.transcript), uses := h.uses.(clientFin := Some(h.transcript)))
  }

  /** Branch one of send_remain_server_records: EncryptedExtensions and Certificate, then the request
      for the CertificateVerify signature over the transcript so far. */
  function SendCertificates(h: Hs, p: Prims, cert: bytes): Option<Hs>
  {
    match SendSealed(h, p, 8, EncryptedExtensionsMsg())
    case None => None
    case Some(h1) =>
      match SendSealed(h1.(step := ENCRYPTED_EXTENSIONS), p, 11, CertificateMsg(cert))
      case None => None
      case Some(h2) =>
        var h3 := h2.(step := CERTIFICATE, uses := h2.uses.(certVerify := Some(h2.transcript)));
        Some(Submit(h3, Signature))
  }

  /** send_server_finished */
  function SendServerFinished(h: Hs, p: Prims): Option<Hs>
  {
    var verifyData := VerifyData(p, h.keys.serverSecret, h.transcript);
    SendSealed(h.(uses := h.uses.(serverFin := Some(h.transcript))), p, 20, FinishedMsg(verifyData))
  }

  /** Branch two: CertificateVerify, Finished, the application keys and the expected client Finished. */
  function SendVerifyAndFinished(h: Hs, p: Prims): Option<Hs>
  {
    match SendSealed(h, p, 15, CertificateVerifyMsg(h.sigAlg, h.signature))
    case None => None
    case Some(h1) =>
      match SendServerFinished(h1.(step := CERTIFICATE_VERIFY), p)
      case None => None
      case Some(h2) => Some(CalculateVerifyData(CalculateAppKeys(h2, p), p))
  }

  /** send_pending_records: the whole flight goes out and is kept for retransmission in server_records. */
  function Release(h: Hs): Hs
  {
    h.(serverRecords := h.buffer, buffer := [], step := FINISHED, released := true)
  }

  function FromOption(h: Hs, o: Option<Hs>, submit: Option<Opcode>, meta: bool): Out
  {
    match o
    case None => Quiet(h).(verdict := Exit)
    case Some(h') => Out(h', submit, meta, None, Continue)
  }

  /** send_remain_server_records */
  function SendRemain(h: Hs, p: Prims, cert: bytes, recvMigFin: bool): Out
  {
    if h.step == SERVER_HELLO && h.keyCalc then
      FromOption(h, SendCertificates(h, p, cert), Some(Signature), false)
    else if h.step == CERTIFICATE && h.signed then
      FromOption(h, SendVerifyAndFinished(h, p), None, true)
    else if h.step == CERTIFICATE_VERIFY && recvMigFin then
      if |h.buffer| > SERVER_RECORDS then Quiet(h).(verdict := Exit)
      else Out(Release(h), None, false, Some(h.buffer), Continue)
    else Quiet(h)
  }

  // ---------------------------------------------------------------- records from the client

  /** handle_change_cipher_spec */
  function HandleCcs(h: Hs): Out
  {
    if h.step != FINISHED && h.step >= CLIENT_CIPHER_SPEC then Quiet(h)
    else Quiet(h.(step := CLIENT_CIPHER_SPEC, readGcm := h.pendingGcm))
  }

  /** handle_application_data for a client Finished: the session is marked active before the
      comparison, and a mismatch aborts it. */
  function HandleFinished(h: Hs, verifyData: bytes): Out
  {
    if h.step >= FINISHED then Quiet(h)
    else
      var h1 := h.(step := FINISHED, state := Active);
      if verifyData != Fit(h.vd, 48) then Quiet(h1).(verdict := Abort)
      else Quiet(h1.(accepted := Some(verifyData)))
  }

  /** unpack_application_data and handle_application_data on the (possibly decrypted) content. */
  function HandleInner(h: Hs, content: bytes): Out
  {
    if content == [] || content[|content| - 1] != HANDSHAKE then Quiet(h)
    else HandleFinished(h, (content + Zeros(52))[4..52])
  }

  /** Handshake messages only a server sends, or that need an RSA key exchange: handle_handshake aborts. */
  predicate Unexpected(msgType: byte)
  {
    msgType in {0, 2, 11, 12, 13, 14, 15, 16, 20}
  }

  /** process_read_record */
  function ProcessRead(h: Hs, p: Prims, r: Rec): Out
  {
    if h.step >= CLIENT_HELLO && (r.HelloRec? || r.HandshakeRec?) then
      Out(h, None, h.step == CERTIFICATE_VERIFY && h.signed,
          if h.step == FINISHED && h.signed then Some(h.serverRecords) else None, Continue)
    else
      match r
      case HelloRec(ch) => if ch.supported then GenerateKeyPair(h, ch) else Quiet(h)
      case HandshakeRec(t) =>
        if Unexpected(t) then Quiet(h).(verdict := Abort) else Quiet(h)
      case CcsRec => if h.readGcm && !h.state.Active? then Quiet(h) else HandleCcs(h)
      case AlertRec(level, description) =>
        if h.readGcm then
          if h.state.Active? then Quiet(h).(verdict := Abort) else Quiet(h)
        else if level == 2 || description == 0 then Quiet(h).(verdict := Abort) else Quiet(h)
      case DataRec(header, body) =>
        if !h.readGcm then HandleInner(h, body)
        else if h.state.Active? then Quiet(h)
        else
          match p.open(h.keys.clientKey, Nonce(Fit(h.keys.clientIv, 12), 0), header, body)
          case None => Quiet(h)
          case Some(content) => HandleInner(h, content)
  }

  /** The tail of process_new_record: queue behind an outstanding request, or process at once. */
  function Arrive(h: Hs, p: Prims, r: Rec): Out
  {
    if h.waiting then Quiet(h.(recvQ := h.recvQ + [r])) else ProcessRead(h, p, r)
  }

  /** One turn of process_session_read's loop. */
  function ReadQueue(h: Hs, p: Prims): Out
  {
    if h.recvQ == [] || h.waiting then Quiet(h)
    else ProcessRead(h.(recvQ := h.recvQ[1..]), p, h.recvQ[0])
  }
}
