/** ssl_session_t as an object whose routines update its fields in place. Each routine leaves the state its
    function in `Handshake` describes; the routines called from outside carry the session's invariant from
    call to call, in any order the environment can make them, and say what it gives the caller. */
module SessionObject {
  import opened Bytes
  import opened Tls
  import opened Handshake
  import opened HandshakeProofs
  import Session
  import NicProofs
  import Der

  /** pending_sp, write_sp and read_sp as far as they differ, and what the ClientHello chose. */
  datatype Params = Params(pendingGcm: bool, writeGcm: bool, readGcm: bool, version: b2, sigAlg: b2)

  /** The outstanding PKA request. */
  datatype Crypto = Crypto(held: Option<ClientHello>, waiting: bool, completed: bool, pendingOp: Option<Opcode>,
                           result: (Der.Operand, Der.Operand))

  /** tls13_ctx_t */
  datatype Tls13 = Tls13(dhe: bytes, keyCalc: bool, signed: bool, signature: bytes, keys: HandshakeKeys, app: AppKeys,
                         vd: bytes)

  /** The history variables. */
  datatype History = History(msgs: seq<bytes>, records: seq<bytes>, nonces: seq<bytes>, uses: Uses, released: bool,
                             accepted: Option<bytes>)

  class SslSession {
    var state: SslState
    var step: int
    var recvQ: seq<Rec>
    var transcript: bytes
    var buffer: bytes
    var serverRecords: bytes
    var sendSeq: u64
    var ivSeq: u64
    var sp: Params
    var crypto: Crypto
    var tls13: Tls13
    ghost var hist: History

    ghost function View(): Hs
      reads this
    {
      Hs(state, step, recvQ, transcript, hist.msgs, buffer, hist.records, serverRecords, sendSeq, ivSeq, hist.nonces,
         sp.pendingGcm, sp.writeGcm, sp.readGcm, sp.version, sp.sigAlg, crypto.held, crypto.waiting, crypto.completed,
         crypto.pendingOp, crypto.result, tls13.dhe, tls13.keyCalc, tls13.signed, tls13.signature, tls13.keys,
         tls13.app, tls13.vd, hist.uses, hist.released, hist.accepted)
    }

    /** What every call may rely on and leaves behind. */
    ghost predicate Valid(p: Prims, cert: bytes)
      reads this
    {
      HandshakeProofs.Inv(View(), p, cert)
    }

    /** A slot as clear_ssl_session leaves it. */
    constructor ()
      ensures View() == Cleared([])
    {
      state, step, recvQ, transcript, buffer, serverRecords := Init, HELLO_REQUEST, [], [], [], [];
      sendSeq, ivSeq := 0, 0;
      sp := Params(false, false, false, [0, 0], [0, 0]);
      crypto := Crypto(None, false, false, None, ([], []));
      tls13 := Tls13([], false, false, [], NO_KEYS, NO_APP, []);
      hist := History([], [], [], NO_USES, false, None);
    }

    /** clear_ssl_session */
    method Clear()
      modifies this
      ensures View() == Cleared(old(serverRecords))
    {
      ClearBuffers();
      sp := Params(false, false, false, [0, 0], [0, 0]);
      crypto := Crypto(None, false, false, None, ([], []));
      tls13 := Tls13([], false, false, [], NO_KEYS, NO_APP, []);
      hist := History([], [], [], NO_USES, false, None);
    }

    method ClearBuffers()
      modifies this`state, this`step, this`recvQ, this`transcript, this`buffer, this`sendSeq, this`ivSeq
      ensures state == Init && step == HELLO_REQUEST && recvQ == [] && transcript == [] && buffer == []
      ensures sendSeq == 0 && ivSeq == 0
    {
      state, step, recvQ, transcript, buffer, sendSeq, ivSeq := Init, HELLO_REQUEST, [], [], [], 0, 0;
    }

    // ---------------------------------------------------------------- sending

    /** store_handshake; false is its assertion. */
    method StoreHandshake(msgType: byte, msg: bytes) returns (ok: bool)
      modifies this`transcript, this`hist
      ensures ok <==> Fits(old(View()), msgType, msg)
      ensures ok ==> View() == Handshake.StoreHandshake(old(View()), msgType, msg)
    {
      if msgType <= step {
        return true;
      }
      transcript := transcript + msg;
      hist := hist.(msgs := hist.msgs + [msg]);
      return |transcript| < MAX_HANDSHAKE;
    }

    /** The tail of send_record; false is a full send buffer. */
    method EnqueueRecord(record: bytes) returns (ok: bool)
      modifies this`buffer, this`hist
      ensures ok <==> Room(old(View()), record)
      ensures ok ==> View() == Enqueue(old(View()), record)
    {
      if |buffer| + |record| > SEND_BUFFER {
        return false;
      }
      buffer := buffer + record;
      hist := hist.(records := hist.records + [record]);
      return true;
    }

    /** send_handshake through send_record */
    method SendHandshake(msgType: byte, msg: bytes) returns (ok: bool)
      modifies this`transcript, this`buffer, this`hist
      ensures ok <==> SendPlain(old(View()), msgType, msg).Some?
      ensures ok ==> View() == SendPlain(old(View()), msgType, msg).value
    {
      ok := StoreHandshake(msgType, msg);
      if ok {
        ok := EnqueueRecord(PlainRecord(HANDSHAKE, sp.version, msg));
      }
    }

    /** encrypt_record's nonce and the two counters after it; None is the sequence-number exit. */
    method NextNonce() returns (nonce: Option<bytes>)
      modifies this`hist, this`sendSeq, this`ivSeq
      ensures nonce.None? <==> old(ivSeq) != old(sendSeq)
      ensures nonce.Some? ==>
                && nonce.value == Nonce(Fit(tls13.keys.serverIv, 12), old(sendSeq))
                && View() == Used(old(View()), nonce.value)
    {
      if ivSeq != sendSeq {
        return None;
      }
      var n := Nonce(Fit(tls13.keys.serverIv, 12), sendSeq);
      hist := hist.(nonces := hist.nonces + [n]);
      ivSeq := Following(sendSeq);
      sendSeq := Following(sendSeq);
      return Some(n);
    }

    /** send_handshake_tls13 through send_record and encrypt_record; false is an exit. */
    method SendHandshakeTls13(p: Prims, msgType: byte, msg: bytes) returns (ok: bool)
      modifies this`transcript, this`buffer, this`hist, this`sendSeq, this`ivSeq
      ensures ok <==> SendSealed(old(View()), p, msgType, msg).Some?
      ensures ok ==> View() == SendSealed(old(View()), p, msgType, msg).value
    {
      ok := StoreHandshake(msgType, msg);
      if !ok {
        return;
      }
      if !sp.writeGcm {
        ok := EnqueueRecord(PlainRecord(APPLICATION_DATA, sp.version, msg + [HANDSHAKE]));
        return;
      }
      var nonce := NextNonce();
      if nonce.None? {
        return false;
      }
      ok := EnqueueRecord(SealedRecord(p, tls13.keys.serverKey, nonce.value, sp.version, msg));
    }

    /** submit_pka_request and the assignments after it. */
    method SubmitPkaRequest(op: Opcode)
      modifies this`crypto
      ensures View() == Submit(old(View()), op)
    {
      crypto := crypto.(waiting := true, pendingOp := Some(op));
    }

    // ---------------------------------------------------------------- resumption

    /** The choices handle_handshake makes from a ClientHello. */
    method ChooseParameters(ch: ClientHello)
      modifies this`state, this`step, this`sp
      ensures View() == Chosen(old(View()), ch)
    {
      state := InHandshake;
      step := CLIENT_HELLO;
      sp := sp.(pendingGcm := SelectCipher(ch.suites) == GCM_SUITE, sigAlg := SelectSignatureAlgorithm(ch.sigAlgs),
                version := ch.version);
    }

    /** calculate_shared_secret and the switch of write_sp. */
    method AskSharedSecret()
      modifies this`step, this`crypto, this`sp, this`sendSeq
      ensures View() == Asking(old(View()))
    {
      step := SERVER_HELLO;
      SubmitPkaRequest(SharedSecret);
      sp := sp.(writeGcm := sp.pendingGcm);
      sendSeq := 0;
    }

    /** handle_handshake for a ClientHello; false is an exit. */
    method HandleClientHello(ch: ClientHello, random: b32) returns (ok: bool, submit: Option<Opcode>)
      modifies this`state, this`step, this`sp, this`crypto, this`sendSeq, this`transcript, this`buffer, this`hist
      ensures var o := Handshake.HandleClientHello(old(View()), ch, random);
              (ok <==> o.verdict == Continue) && (ok ==> View() == o.h && submit == o.submit)
    {
      submit := None;
      HelloInSteps(View(), ch, random);
      ok := StoreHandshake(1, ch.raw);
      if !ok || step >= CLIENT_HELLO {
        return;
      }
      ChooseParameters(ch);
      ok := SendHandshake(2, HelloFor(ch, random, crypto.result));
      if ok {
        AskSharedSecret();
        submit := Some(SharedSecret);
      }
    }

    /** handle_after_ecdhe_shared_secret_calc */
    method HandleAfterSharedSecret(p: Prims)
      modifies this`tls13, this`hist
      ensures View() == AfterSharedSecret(old(View()), p)
    {
      tls13 := tls13.(dhe := Fit(crypto.result.0, 32));
      if sp.pendingGcm {
        tls13 := tls13.(keys := KeysFromSecret(p, tls13.dhe, p.sha(transcript)));
        hist := hist.(uses := hist.uses.(hsKeys := Some(transcript)));
      }
      tls13 := tls13.(keyCalc := true);
    }

    /** handle_after_ecdsa_signature, whose encoding Der.HandleAfterEcdsaSignature computes in place. */
    method HandleAfterEcdsaSignature()
      modifies this`tls13
      ensures View() == AfterSignature(old(View()))
    {
      tls13 := tls13.(signature := Der.DerSignature(crypto.result.0, crypto.result.1), signed := true);
    }

    /** get_processed_crypto. It ends the process exactly when ClientHello and ServerHello overrun the
        transcript. Otherwise the answer is taken by the branch handshake_state names, the flags are down, and
        at most the next request is out; after the shared secret the keys are the RFC's over exactly
        ClientHello and ServerHello. */
    method GetProcessedCrypto(p: Prims, ghost cert: bytes, random: b32) returns (ok: bool, submit: Option<Opcode>)
      requires Valid(p, cert)
      modifies this
      ensures ok <==> !Session.Overflows(old(View()), cert, Session.Resumption(random))
      ensures var o := GetProcessed(old(View()), p, random);
              ok ==> Valid(p, cert) && View() == o.h && submit == o.submit
      ensures ok && !old(crypto.completed) ==> View() == old(View()) && submit == None
      ensures ok && old(crypto.completed) ==> !crypto.waiting && !crypto.completed && crypto.pendingOp == submit
      ensures ok ==> KeysMean(View(), p)
      ensures ok ==> hist.released == old(hist.released) && (state.Active? <==> old(state.Active?))
    {
      ResumedMeans(View(), p, cert, random);
      ok, submit := TakeAnswer(p, random);
    }

    method TakeAnswer(p: Prims, random: b32) returns (ok: bool, submit: Option<Opcode>)
      modifies this
      ensures var o := GetProcessed(old(View()), p, random);
              (ok <==> o.verdict == Continue) && (ok ==> View() == o.h && submit == o.submit)
    {
      ok, submit := true, None;
      if crypto.completed {
        ok, submit := Resume(p, random);
        if ok {
          crypto := crypto.(waiting := false, completed := false);
        }
      }
    }

    /** The branch of get_processed_crypto, up to the clearing of the flags. */
    method Resume(p: Prims, random: b32) returns (ok: bool, submit: Option<Opcode>)
      modifies this
      ensures var o := Handshake.Resume(old(View()), p, random);
              (ok <==> o.verdict == Continue) && (ok ==> View() == o.h && submit == o.submit)
    {
      ok, submit := true, None;
      if step == HELLO_REQUEST && crypto.held.Some? {
        var ch := crypto.held.value;
        crypto := crypto.(pendingOp := None);
        ok, submit := HandleClientHello(ch, random);
        crypto := crypto.(held := None);
      } else if step == SERVER_HELLO {
        crypto := crypto.(pendingOp := None);
        HandleAfterSharedSecret(p);
      } else if step == CERTIFICATE {
        crypto := crypto.(pendingOp := None);
        HandleAfterEcdsaSignature();
      } else {
        ok := false;
      }
    }

    /** handle_completed_pka, the part that touches the session: the result first, then the flag. The session
        goes on waiting for the same request, which now has its answer. */
    method HandleCompletedPka(ghost p: Prims, ghost cert: bytes, answer: (Der.Operand, Der.Operand))
      requires Valid(p, cert) && crypto.pendingOp.Some?
      modifies this`crypto
      ensures Valid(p, cert) && View() == PostResult(old(View()), answer)
      ensures crypto.completed && crypto.pendingOp == ExpectedOp(View()) == old(crypto.pendingOp)
    {
      Session.ResultKeeps(View(), p, cert, answer);
      crypto := crypto.(result := answer);
      crypto := crypto.(completed := true);
    }

    // ---------------------------------------------------------------- the server flight

    /** EncryptedExtensions, Certificate and the request for the signature; false is an exit. */
    method SendCertificate(p: Prims, cert: bytes) returns (ok: bool)
      modifies this
      ensures var o := SendCertificates(old(View()), p, cert); (ok <==> o.Some?) && (ok ==> View() == o.value)
    {
      ok := SendHandshakeTls13(p, 8, EncryptedExtensionsMsg());
      if !ok {
        return;
      }
      step := ENCRYPTED_EXTENSIONS;
      ok := SendHandshakeTls13(p, 11, CertificateMsg(cert));
      if !ok {
        return;
      }
      AskSignature();
    }

    /** signature_certificate */
    method AskSignature()
      modifies this`step, this`hist, this`crypto
      ensures View() == AskingSignature(old(View()))
    {
      step := CERTIFICATE;
      hist := hist.(uses := hist.uses.(certVerify := Some(transcript)));
      SubmitPkaRequest(Signature);
    }

    /** handle_app_keys_calculation and handle_verify_data_calculation */
    method CalculateSecrets(p: Prims)
      modifies this`tls13, this`hist
      ensures View() == CalculateVerifyData(CalculateAppKeys(old(View()), p), p)
    {
      if sp.pendingGcm {
        tls13 := tls13.(app := AppKeysFromSecret(p, tls13.keys.secret, p.sha(transcript)));
        hist := hist.(uses := hist.uses.(appKeys := Some(transcript)));
      }
      tls13 := tls13.(vd := VerifyData(p, tls13.keys.clientSecret, transcript));
      hist := hist.(uses := hist.uses.(clientFin := Some(transcript)));
    }

    /** CertificateVerify, Finished and the secrets over the whole transcript; false is an exit. */
    method SendVerify(p: Prims) returns (ok: bool)
      modifies this
      ensures var o := SendVerifyAndFinished(old(View()), p); (ok <==> o.Some?) && (ok ==> View() == o.value)
    {
      ok := SendHandshakeTls13(p, 15, CertificateVerifyMsg(sp.sigAlg, tls13.signature));
      if !ok {
        return;
      }
      step := CERTIFICATE_VERIFY;
      var verifyData := VerifyData(p, tls13.keys.serverSecret, transcript);
      hist := hist.(uses := hist.uses.(serverFin := Some(transcript)));
      ok := SendHandshakeTls13(p, 20, FinishedMsg(verifyData));
      if ok {
        CalculateSecrets(p);
      }
    }

    /** send_pending_records and the assignment after it; the flight is returned for send_tcp_packet. */
    method SendPendingRecords() returns (flight: bytes)
      modifies this`serverRecords, this`buffer, this`step, this`hist
      ensures View() == Release(old(View())) && flight == old(buffer)
    {
      flight := buffer;
      serverRecords := buffer;
      buffer := [];
      step := FINISHED;
      hist := hist.(released := true);
    }

    /** send_remain_server_records. It ends the process exactly when the transcript or server_records runs
        full. Otherwise it asks for the signature, for the key meta, or hands out the flight: the last only on
        a matched mig-fin, only once, and then it is all records so far, kept for retransmission. A key meta
        is asked for exactly when the application keys and the expected Finished are the RFC's over the six
        messages. */
    method SendRemainServerRecords(p: Prims, cert: bytes, recvMigFin: bool)
      returns (ok: bool, submit: Option<Opcode>, meta: bool, wire: Option<bytes>)
      requires Sound(p) && Valid(p, cert)
      modifies this
      ensures ok <==> !Session.Overflows(old(View()), cert, Session.Flush(recvMigFin))
      ensures var o := SendRemain(old(View()), p, cert, recvMigFin);
              ok ==> Valid(p, cert) && View() == o.h && submit == o.submit && meta == o.meta && wire == o.wire
      ensures ok && wire.Some? ==>
                && recvMigFin && !old(hist.released) && hist.released && wire.value == Flatten(hist.records)
                && serverRecords == wire.value && buffer == []
      ensures ok && !old(hist.released) && hist.released ==> wire.Some?
      ensures ok ==> (old(hist.released) ==> hist.released) && (state.Active? <==> old(state.Active?))
      ensures ok && meta ==> !hist.released && SecretsMean(View(), p)
      ensures ok && submit.Some? ==>
                submit == Some(Signature) && crypto.pendingOp == submit && old(crypto.pendingOp).None?
    {
      FlushedMeans(View(), p, cert, recvMigFin);
      ok, submit, meta, wire := Flush(p, cert, recvMigFin);
    }

    /** The three branches. */
    method Flush(p: Prims, cert: bytes, recvMigFin: bool)
      returns (ok: bool, submit: Option<Opcode>, meta: bool, wire: Option<bytes>)
      modifies this
      ensures var o := SendRemain(old(View()), p, cert, recvMigFin);
              && (ok <==> o.verdict == Continue)
              && (ok ==> View() == o.h && submit == o.submit && meta == o.meta && wire == o.wire)
    {
      ok, submit, meta, wire := true, None, false, None;
      if step == SERVER_HELLO && tls13.keyCalc {
        ok := SendCertificate(p, cert);
        submit := Some(Signature);
      } else if step == CERTIFICATE && tls13.signed {
        ok := SendVerify(p);
        meta := true;
      } else if step == CERTIFICATE_VERIFY && recvMigFin {
        ok := |buffer| <= SERVER_RECORDS;
        if ok {
          var flight := SendPendingRecords();
          wire := Some(flight);
        }
      }
    }

    // ---------------------------------------------------------------- records from the client

    /** handle_change_cipher_spec */
    method HandleChangeCipherSpec()
      modifies this`step, this`sp
      ensures View() == HandleCcs(old(View())).h
    {
      if step == FINISHED || step < CLIENT_CIPHER_SPEC {
        step := CLIENT_CIPHER_SPEC;
        sp := sp.(readGcm := sp.pendingGcm);
      }
    }

    /** The client Finished in handle_application_data: the state moves before the comparison. */
    method HandleClientFinished(verifyData: bytes) returns (verdict: Verdict)
      modifies this`step, this`state, this`hist
      ensures var o := HandleFinished(old(View()), verifyData); verdict == o.verdict && View() == o.h
    {
      if step >= FINISHED {
        return Continue;
      }
      step := FINISHED;
      state := Active;
      if verifyData != Fit(tls13.vd, 48) {
        return Abort;
      }
      hist := hist.(accepted := Some(verifyData));
      return Continue;
    }

    /** unpack_application_data and handle_application_data */
    method HandleApplicationData(content: bytes) returns (verdict: Verdict)
      modifies this`step, this`state, this`hist
      ensures var o := HandleInner(old(View()), content); verdict == o.verdict && View() == o.h
    {
      if content == [] || content[|content| - 1] != HANDSHAKE {
        return Continue;
      }
      verdict := HandleClientFinished((content + Zeros(52))[4..52]);
    }

    /** decrypt_record before the session is active, then the content. */
    method ReadData(p: Prims, header: bytes, body: bytes) returns (verdict: Verdict)
      modifies this`step, this`state, this`hist
      ensures var o := ProcessRead(old(View()), p, DataRec(header, body)); verdict == o.verdict && View() == o.h
    {
      if !sp.readGcm {
        verdict := HandleApplicationData(body);
        return;
      }
      var clear := p.open(tls13.keys.clientKey, Nonce(Fit(tls13.keys.clientIv, 12), 0), header, body);
      if state.Active? || clear.None? {
        return Continue;
      }
      verdict := HandleApplicationData(clear.value);
    }

    /** process_read_record */
    method ProcessReadRecord(p: Prims, r: Rec)
      returns (verdict: Verdict, submit: Option<Opcode>, meta: bool, wire: Option<bytes>)
      modifies this`step, this`state, this`hist, this`sp, this`crypto
      ensures var o := ProcessRead(old(View()), p, r);
              verdict == o.verdict && submit == o.submit && meta == o.meta && wire == o.wire && View() == o.h
    {
      verdict, submit, meta, wire := Continue, None, false, None;
      if step >= CLIENT_HELLO && (r.HelloRec? || r.HandshakeRec?) {
        meta := step == CERTIFICATE_VERIFY && tls13.signed;
        if step == FINISHED && tls13.signed {
          wire := Some(serverRecords);
        }
        return;
      }
      match r
      case HelloRec(ch) =>
        if ch.supported {
          crypto := crypto.(held := Some(ch));
          SubmitPkaRequest(KeyGen);
          submit := Some(KeyGen);
        }
      case HandshakeRec(t) =>
        if Unexpected(t) {
          verdict := Abort;
        }
      case CcsRec =>
        if !sp.readGcm || state.Active? {
          HandleChangeCipherSpec();
        }
      case AlertRec(level, description) =>
        if (if sp.readGcm then state.Active? else level == 2 || description == 0) {
          verdict := Abort;
        }
      case DataRec(header, body) =>
        verdict := ReadData(p, header, body);
    }

    /** The tail of process_new_record for one complete record. A record that comes while a request is
        outstanding waits; otherwise it is processed at once. The session becomes active only on the MAC over
        the six messages, and only after the flight is out. */
    method ProcessNewRecord(p: Prims, ghost cert: bytes, r: Rec)
      returns (verdict: Verdict, submit: Option<Opcode>, meta: bool, wire: Option<bytes>)
      requires Sound(p) && Valid(p, cert) && Ordered(View(), r)
      modifies this`step, this`state, this`hist, this`sp, this`crypto, this`recvQ
      ensures verdict != Exit && Out(View(), submit, meta, wire, verdict) == Arrive(old(View()), p, r)
      ensures verdict == Continue ==> Valid(p, cert) && (state.Active? ==> ActiveMeans(View(), p))
      ensures verdict == Continue ==> hist.released == old(hist.released) && (old(state.Active?) ==> state.Active?)
      ensures old(crypto.waiting) ==>
                recvQ == old(recvQ) + [r] && verdict == Continue && submit == None && !meta && wire == None
      ensures submit.Some? ==> submit == Some(KeyGen) && crypto.pendingOp == submit && old(crypto.pendingOp).None?
    {
      ArrivedMeans(View(), p, cert, r);
      verdict, submit, meta, wire := TakeRecord(p, r);
    }

    method TakeRecord(p: Prims, r: Rec)
      returns (verdict: Verdict, submit: Option<Opcode>, meta: bool, wire: Option<bytes>)
      modifies this`step, this`state, this`hist, this`sp, this`crypto, this`recvQ
      ensures Out(View(), submit, meta, wire, verdict) == Arrive(old(View()), p, r)
    {
      if crypto.waiting {
        recvQ := recvQ + [r];
        verdict, submit, meta, wire := Continue, None, false, None;
      } else {
        verdict, submit, meta, wire := ProcessReadRecord(p, r);
      }
    }

    /** One turn of process_session_read's loop. */
    method ReadNext(p: Prims, ghost cert: bytes)
      returns (verdict: Verdict, submit: Option<Opcode>, meta: bool, wire: Option<bytes>)
      requires Valid(p, cert) && recvQ != [] && !crypto.waiting
      modifies this`step, this`state, this`hist, this`sp, this`crypto, this`recvQ
      ensures verdict != Exit && recvQ == old(recvQ)[1..]
      ensures verdict == Continue ==> Valid(p, cert) && Drains(old(View()), View(), submit)
      ensures verdict == Continue ==> (meta <==> step == CERTIFICATE_VERIFY && Repeats(old(recvQ)[0]))
      ensures verdict == Continue ==> (wire.Some? <==> step == FINISHED && Repeats(old(recvQ)[0]))
      ensures verdict == Continue && wire.Some? ==> wire.value == serverRecords
    {
      DrainedMeans(View(), p, cert);
      verdict, submit, meta, wire := ReadHead(p);
    }

    method ReadHead(p: Prims) returns (verdict: Verdict, submit: Option<Opcode>, meta: bool, wire: Option<bytes>)
      requires recvQ != [] && !crypto.waiting
      modifies this`step, this`state, this`hist, this`sp, this`crypto, this`recvQ
      ensures recvQ == old(recvQ)[1..]
      ensures Out(View(), submit, meta, wire, verdict) == Handshake.ReadQueue(old(View()), p)
    {
      var target := recvQ[0];
      recvQ := recvQ[1..];
      verdict, submit, meta, wire := ProcessReadRecord(p, target);
    }

    /** process_session_read: queued records are processed in order until a request is outstanding, the queue is
        empty, or a record aborts the session. At most one of them starts a request, and nothing else of the
        session moves; every repeated ClientHello asks once for the key meta or the kept flight. */
    method ProcessSessionRead(p: Prims, ghost cert: bytes)
      returns (verdict: Verdict, submit: Option<Opcode>, metas: nat, flights: nat)
      requires Valid(p, cert)
      modifies this`step, this`state, this`hist, this`sp, this`crypto, this`recvQ
      ensures verdict != Exit
      ensures verdict == Continue ==>
                Valid(p, cert) && (recvQ == [] || crypto.waiting) && Drains(old(View()), View(), submit)
      ensures verdict == Continue ==> Counted(old(recvQ), |recvQ|, step, metas, flights)
    {
      verdict, submit, metas, flights := Continue, None, 0, 0;
      while recvQ != [] && !crypto.waiting
        invariant Valid(p, cert) && verdict == Continue && Drains(old(View()), View(), submit)
        invariant Counted(old(recvQ), |recvQ|, step, metas, flights)
        decreases |recvQ|
      {
        verdict, submit, metas, flights := TakeTurn(p, cert, metas, flights, old(View()));
        if verdict != Continue {
          return;
        }
      }
    }

    /** One turn, and what it adds to the requests for key metas and flights since the queue was `h0`'s. */
    method TakeTurn(p: Prims, ghost cert: bytes, metas: nat, flights: nat, ghost h0: Hs)
      returns (verdict: Verdict, submit: Option<Opcode>, metas': nat, flights': nat)
      requires Valid(p, cert) && recvQ != [] && !crypto.waiting && Drains(h0, View(), None)
      requires Counted(h0.recvQ, |recvQ|, step, metas, flights)
      modifies this`step, this`state, this`hist, this`sp, this`crypto, this`recvQ
      ensures verdict != Exit && recvQ == old(recvQ)[1..]
      ensures verdict == Continue ==> Valid(p, cert) && Drains(h0, View(), submit)
      ensures verdict == Continue ==> Counted(h0.recvQ, |recvQ|, step, metas', flights')
    {
      ghost var before := View();
      var meta, wire;
      verdict, submit, meta, wire := ReadNext(p, cert);
      metas' := if meta then metas + 1 else metas;
      flights' := if wire.Some? then flights + 1 else flights;
      if verdict == Continue {
        TurnCounts(h0, before, View(), submit, meta, wire.Some?, metas, flights);
      }
    }
  }

  // ---------------------------------------------------------------- the steps of the larger routines

  lemma ResumedMeans(h: Hs, p: Prims, cert: bytes, random: b32)
    requires HandshakeProofs.Inv(h, p, cert)
    ensures var o := GetProcessed(h, p, random);
            && (o.verdict == Continue <==> !Session.Overflows(h, cert, Session.Resumption(random)))
            && (o.verdict == Continue ==>
                  && HandshakeProofs.Inv(o.h, p, cert) && KeysMean(o.h, p)
                  && o.h.released == h.released && (o.h.state.Active? <==> h.state.Active?)
                  && (h.completed ==> !o.h.waiting && !o.h.completed && o.h.pendingOp == o.submit))
  {
    Session.ResumptionKeeps(h, p, cert, random);
    var o := GetProcessed(h, p, random);
    if o.verdict == Continue {
      KeysMeanWhat(o.h, p, cert);
      ResumedState(h, p, cert, random);
    }
  }

  /** Resumption neither releases nor activates: it comes before both. */
  lemma ResumedState(h: Hs, p: Prims, cert: bytes, random: b32)
    requires HandshakeProofs.Inv(h, p, cert) && GetProcessed(h, p, random).verdict == Continue
    ensures var h' := GetProcessed(h, p, random).h;
            h'.released == h.released && (h'.state.Active? <==> h.state.Active?)
  {
    if h.completed && h.step == HELLO_REQUEST {
      HelloKeeps(h, p, cert, random);
      GreetedEffect(h, p, cert, random);
    }
  }

  /** The handshake keys are the RFC's, over exactly ClientHello and ServerHello. */
  ghost predicate KeysMean(h: Hs, p: Prims)
  {
    h.keyCalc && h.pendingGcm ==> |h.msgs| >= 2 && h.keys == RfcHandshakeKeys(p, h.dhe, Flatten(h.msgs[..2]))
  }

  /** Application keys and expected client Finished are the RFC's, over all six messages. */
  ghost predicate SecretsMean(h: Hs, p: Prims)
  {
    && |h.msgs| == 6 && h.vd == FinishedMac(p, h.keys.clientSecret, Flatten(h.msgs))
    && (h.pendingGcm ==> h.app == RfcAppKeys(p, h.dhe, Flatten(h.msgs)))
  }

  lemma FlushedMeans(h: Hs, p: Prims, cert: bytes, fin: bool)
    requires Sound(p) && HandshakeProofs.Inv(h, p, cert)
    ensures var o := SendRemain(h, p, cert, fin);
            && (o.verdict == Continue <==> !Session.Overflows(h, cert, Session.Flush(fin)))
            && (o.verdict == Continue ==>
                  && HandshakeProofs.Inv(o.h, p, cert)
                  && (o.wire.Some? ==> fin && !h.released && o.h.released && o.wire.value == Flatten(o.h.records)
                                       && o.h.serverRecords == o.wire.value && o.h.buffer == [])
                  && (!h.released && o.h.released ==> o.wire.Some?)
                  && (h.released ==> o.h.released) && (o.h.state.Active? <==> h.state.Active?)
                  && (o.meta ==> !o.h.released && SecretsMean(o.h, p))
                  && (o.submit.Some? ==> o.submit == Some(Signature) && o.h.pendingOp == o.submit && h.pendingOp.None?))
  {
    Session.FlushKeeps(h, p, cert, fin);
    NicProofs.RemainHandoff(h, p, cert, fin);
    var o := SendRemain(h, p, cert, fin);
    if o.verdict == Continue && o.meta {
      FinishKeeps(h, p, cert);
      HeldMeans(o.h, p, cert);
    }
  }

  lemma HeldMeans(h: Hs, p: Prims, cert: bytes)
    requires HandshakeProofs.Inv(h, p, cert) && |h.msgs| == 6
    ensures SecretsMean(h, p)
  {
    UptoAll(h.msgs);
  }

  /** An active session released its flight and accepted the MAC over the six messages. */
  ghost predicate ActiveMeans(h: Hs, p: Prims)
  {
    h.released && |h.msgs| == 6 && h.accepted == Some(FinishedMac(p, h.keys.clientSecret, Flatten(h.msgs)))
  }

  lemma ActiveMeansWhat(h: Hs, p: Prims, cert: bytes)
    requires Sound(p) && HandshakeProofs.Inv(h, p, cert) && h.state.Active?
    ensures ActiveMeans(h, p)
  {
    UptoAll(h.msgs);
  }

  lemma ArrivedMeans(h: Hs, p: Prims, cert: bytes, r: Rec)
    requires Sound(p) && HandshakeProofs.Inv(h, p, cert) && Ordered(h, r)
    ensures var o := Arrive(h, p, r);
            && o.verdict != Exit
            && (o.verdict == Continue ==>
                  && HandshakeProofs.Inv(o.h, p, cert) && (o.h.state.Active? ==> ActiveMeans(o.h, p))
                  && o.h.released == h.released && (h.state.Active? ==> o.h.state.Active?))
            && (o.submit.Some? ==> o.submit == Some(KeyGen) && o.h.pendingOp == o.submit && h.pendingOp.None?)
  {
    Session.PacketKeeps(h, p, cert, r);
    NicProofs.PacketHandoff(h, p, r);
    var o := Arrive(h, p, r);
    if o.verdict == Continue && o.h.state.Active? {
      ActiveMeansWhat(o.h, p, cert);
    }
  }

  /** A handshake record, which behind the ClientHello counts as a repetition. */
  predicate Repeats(r: Rec)
  {
    r.HelloRec? || r.HandshakeRec?
  }

  /** How many of the records taken from the front of the queue, down to `left`, are handshake records. */
  function Repeated(queue: seq<Rec>, left: nat): nat
    decreases |queue| - left
  {
    if left >= |queue| then 0
    else Repeated(queue, left + 1) + if Repeats(queue[|queue| - left - 1]) then 1 else 0
  }

  /** Every repetition among the records taken asked for the key meta, or for the flight, by handshake_state. */
  predicate Counted(queue: seq<Rec>, left: nat, step: int, metas: nat, flights: nat)
  {
    && metas == (if step == CERTIFICATE_VERIFY then Repeated(queue, left) else 0)
    && flights == (if step == FINISHED then Repeated(queue, left) else 0)
  }

  lemma TurnCounts(h0: Hs, h: Hs, h': Hs, submit: Option<Opcode>, meta: bool, flight: bool, metas: nat, flights: nat)
    requires Drains(h0, h, None) && Drains(h, h', submit) && h.recvQ != [] && h'.recvQ == h.recvQ[1..]
    requires meta <==> h'.step == CERTIFICATE_VERIFY && Repeats(h.recvQ[0])
    requires flight <==> h'.step == FINISHED && Repeats(h.recvQ[0])
    requires Counted(h0.recvQ, |h.recvQ|, h.step, metas, flights)
    ensures Drains(h0, h', submit)
    ensures Counted(h0.recvQ, |h'.recvQ|, h'.step, if meta then metas + 1 else metas,
                    if flight then flights + 1 else flights)
  {
    DrainsOn(h0, h, h', submit);
    RepeatedOn(h0.recvQ, h.recvQ);
    assert h'.step == Requested(h, h').step == h.step;
  }

  lemma RepeatedOn(queue: seq<Rec>, rest: seq<Rec>)
    requires rest != [] && |rest| <= |queue| && rest == queue[|queue| - |rest|..]
    ensures Repeated(queue, |rest| - 1) == Repeated(queue, |rest|) + if Repeats(rest[0]) then 1 else 0
  {
    assert rest[0] == queue[|queue| - |rest|];
  }

  /** `h` with the queue and the request of `h'`. */
  function Requested(h: Hs, h': Hs): Hs
  {
    h.(recvQ := h'.recvQ, held := h'.held, waiting := h'.waiting, pendingOp := h'.pendingOp)
  }

  /** Records left the queue in order, at most one started a request, and nothing else moved. */
  ghost predicate Drains(h: Hs, h': Hs, submit: Option<Opcode>)
  {
    && |h'.recvQ| <= |h.recvQ| && h'.recvQ == h.recvQ[|h.recvQ| - |h'.recvQ|..] && h' == Requested(h, h')
    && Asks(h.pendingOp, submit, h'.pendingOp) && (submit.Some? ==> h'.waiting)
  }

  lemma DrainsOn(h0: Hs, h: Hs, h': Hs, submit: Option<Opcode>)
    requires Drains(h0, h, None) && Drains(h, h', submit)
    ensures Drains(h0, h', submit)
  {
    var n, k := |h0.recvQ| - |h.recvQ|, |h.recvQ| - |h'.recvQ|;
    assert h0.recvQ[n..][k..] == h0.recvQ[n + k..];
  }

  lemma DrainedMeans(h: Hs, p: Prims, cert: bytes)
    requires HandshakeProofs.Inv(h, p, cert) && h.recvQ != [] && !h.waiting
    ensures var o := ProcessRead(h.(recvQ := h.recvQ[1..]), p, h.recvQ[0]);
            && o.verdict != Exit
            && (o.verdict == Continue ==>
                  && HandshakeProofs.Inv(o.h, p, cert) && Drains(h, o.h, o.submit)
                  && (o.meta <==> h.step == CERTIFICATE_VERIFY && Repeats(h.recvQ[0]))
                  && (o.wire.Some? <==> h.step == FINISHED && Repeats(h.recvQ[0]))
                  && (o.wire.Some? ==> o.wire.value == h.serverRecords))
  {
    Session.DrainKeeps(h, p, cert);
    assert !h.recvQ[0].CcsRec? && !h.recvQ[0].DataRec?;
    QueuedRead(h.(recvQ := h.recvQ[1..]), p, h.recvQ[0]);
  }

  /** A handshake record or an alert moves nothing but the request. */
  lemma QueuedRead(h: Hs, p: Prims, r: Rec)
    requires !r.CcsRec? && !r.DataRec?
    ensures var o := ProcessRead(h, p, r);
            && (if r.HelloRec? && h.step < CLIENT_HELLO && r.ch.supported then o == GenerateKeyPair(h, r.ch)
                else o.h == h && o.submit == None)
            && (o.meta <==> h.step == CERTIFICATE_VERIFY && h.signed && Repeats(r))
            && (o.wire.Some? <==> h.step == FINISHED && h.signed && Repeats(r))
            && (o.wire.Some? ==> o.wire.value == h.serverRecords)
  {}

  lemma KeysMeanWhat(h: Hs, p: Prims, cert: bytes)
    requires HandshakeProofs.Inv(h, p, cert)
    ensures KeysMean(h, p)
  {}

  /** A request is started only where none was outstanding. */
  predicate Asks(was: Option<Opcode>, submit: Option<Opcode>, now: Option<Opcode>)
  {
    if submit.Some? then was == None && now == submit else now == was
  }

  function Following(n: u64): u64 { (n + 1) % (TWO32 * TWO32) }

  /** A nonce has been used. */
  function Used(h: Hs, nonce: bytes): Hs
  {
    h.(nonces := h.nonces + [nonce], sendSeq := Following(h.sendSeq), ivSeq := Following(h.sendSeq))
  }

  function AskingSignature(h: Hs): Hs
  {
    Submit(h.(step := CERTIFICATE, uses := h.uses.(certVerify := Some(h.transcript))), Signature)
  }

  lemma HelloInSteps(h: Hs, ch: ClientHello, random: b32)
    ensures Fits(h, 1, ch.raw) && h.step < CLIENT_HELLO ==>
            var o := Handshake.HandleClientHello(h, ch, random);
            var sent := SendPlain(Chosen(Handshake.StoreHandshake(h, 1, ch.raw), ch), 2,
                                  HelloFor(ch, random, h.result));
            && (o.verdict == Continue <==> sent.Some?)
            && (sent.Some? ==> o.h == Asking(sent.value) && o.submit == Some(SharedSecret))
  {
    if Fits(h, 1, ch.raw) && h.step < CLIENT_HELLO {
      var h0 := Handshake.StoreHandshake(h, 1, ch.raw);
      assert h0.step == h.step;
      var o := Handshake.HandleClientHello(h, ch, random);
      var sent := SendPlain(Chosen(h0, ch), 2, HelloFor(ch, random, h.result));
      if sent.Some? {
        assert o == Out(Asking(sent.value), Some(SharedSecret), false, None, Continue);
      } else {
        assert o == Quiet(h).(verdict := Exit);
      }
    }
  }
}
