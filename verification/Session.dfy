/** Whole runs of one session: any interleaving of client records, queue drains, PKA results, resumptions,
    flushes of the server flight and slot reuse. */
module Session {
  import opened Bytes
  import opened Tls
  import opened Handshake
  import opened HandshakeProofs
  import Records
  import Der

  datatype Event =
    | Packet(r: Rec)                                 // a complete record reaches process_new_record
    | Drain                                          // one turn of process_session_read
    | Result(result: (Der.Operand, Der.Operand))     // handle_completed_pka posts this session's result
    | Resumption(random: b32)                        // get_processed_crypto
    | Flush(recvMigFin: bool)                        // send_remain_server_records
    | Recycle                                        // remove_session, then reuse of the slot
    | Header(len: u16)                               // process_new_record reads the length of a new record
    | NoRecord                                       // a routine takes a record and the core's pool is empty

  /** The code run for an event. */
  function Apply(h: Hs, p: Prims, cert: bytes, e: Event): Out
  {
    match e
    case Packet(r) => Arrive(h, p, r)
    case Drain => ReadQueue(h, p)
    case Result(result) => Quiet(PostResult(h, result))
    case Resumption(random) => GetProcessed(h, p, random)
    case Flush(fin) => SendRemain(h, p, cert, fin)
    case Recycle => Quiet(Cleared(h.serverRecords))
    case Header(len) => if len >= Records.MAX_RECORD_SIZE then Quiet(h).(verdict := Exit) else Quiet(h)
    case NoRecord => Quiet(h).(verdict := Exit)
  }

  /** abort_session clears the slot. */
  function After(h: Hs, o: Out): Hs
  {
    if o.verdict == Abort then Cleared(o.h.serverRecords) else o.h
  }

  /** The client keeps to the order of Appendix D.4 of RFC 8446, and the hardware answers only an
      outstanding, unanswered request. */
  predicate Enabled(h: Hs, e: Event)
  {
    match e
    case Packet(r) => Ordered(h, r)
    case Result(_) => h.pendingOp.Some? && !h.completed
    case _ => true
  }

  /** The record layer ends the process: the length field fails its assertion, or the pool has no record. */
  predicate ReaderStops(e: Event)
  {
    e.NoRecord? || (e.Header? && e.len >= Records.MAX_RECORD_SIZE)
  }

  /** What ends the process: the record layer, or the lengths at which an array of the session runs full, which
      is handshake_msgs at the ClientHello, at the Certificate and at the server Finished, and server_records at
      the release. */
  predicate Overflows(h: Hs, cert: bytes, e: Event)
  {
    match e
    case NoRecord => true
    case Header(_) => ReaderStops(e)
    case Resumption(_) =>
      h.completed && h.step == HELLO_REQUEST && h.held.Some? && |h.held.value.raw| + 122 >= MAX_HANDSHAKE
    case Flush(fin) =>
      || (h.step == SERVER_HELLO && h.keyCalc && |h.transcript| + |cert| + 19 >= MAX_HANDSHAKE)
      || (h.step == CERTIFICATE && h.signed && |h.transcript| + |h.signature| + 60 >= MAX_HANDSHAKE)
      || (h.step == CERTIFICATE_VERIFY && fin && |h.buffer| > SERVER_RECORDS)
    case _ => false
  }

  // ---------------------------------------------------------------- one event

  lemma DrainKeeps(h: Hs, p: Prims, cert: bytes)
    requires Inv(h, p, cert) && h.recvQ != [] && !h.waiting
    ensures ReadOutcome(h, p, cert, ProcessRead(h.(recvQ := h.recvQ[1..]), p, h.recvQ[0]))
  {
    var r := h.recvQ[0];
    var h1 := h.(recvQ := h.recvQ[1..]);
    assert Inv(h1, p, cert);
    assert !r.CcsRec? && !r.DataRec? && (r.HelloRec? ==> IsHello(r.ch));
    ReadKeeps(h1, p, cert, r);
  }

  lemma PacketKeeps(h: Hs, p: Prims, cert: bytes, r: Rec)
    requires Inv(h, p, cert) && Ordered(h, r)
    ensures ReadOutcome(h, p, cert, Arrive(h, p, r))
  {
    if h.waiting {
      assert !h.released;
      var q := h.recvQ + [r];
      assert QueueOrdered(q);
      assert Inv(h.(recvQ := q), p, cert);
    } else {
      ReadKeeps(h, p, cert, r);
    }
  }

  lemma ResultKeeps(h: Hs, p: Prims, cert: bytes, result: (Der.Operand, Der.Operand))
    requires Inv(h, p, cert) && h.pendingOp.Some?
    ensures Inv(PostResult(h, result), p, cert)
  {}

  lemma ResumptionKeeps(h: Hs, p: Prims, cert: bytes, random: b32)
    requires Inv(h, p, cert)
    ensures var o := GetProcessed(h, p, random);
            && (o.verdict == Exit <==> Overflows(h, cert, Resumption(random)))
            && (o.verdict != Exit ==>
                  && o.verdict == Continue && Inv(o.h, p, cert) && !o.meta && o.wire == None
                  && (if h.completed
                      then o.h.pendingOp == o.submit && !o.h.completed
                      else o == Quiet(h)))
  {
    if h.completed {
      if h.step == HELLO_REQUEST {
        HelloKeeps(h, p, cert, random);
      } else if h.step == SERVER_HELLO {
        SharedKeeps(h, p, cert, random);
      } else {
        SignKeeps(h, p, cert, random);
      }
    }
  }

  /** What a flush does to an invariant state: when it ends the process, which of the three branches ran,
      and its effect outside. */
  ghost predicate Flushed(h: Hs, p: Prims, cert: bytes, recvMigFin: bool, o: Out)
  {
    && (o.verdict == Exit <==> Overflows(h, cert, Flush(recvMigFin)))
    && (o.verdict == Exit ==> o == Quiet(h).(verdict := Exit))
    && (o.verdict != Exit ==>
          && o.verdict == Continue && Inv(o.h, p, cert)
          && (o.submit == Some(Signature) <==> h.step == SERVER_HELLO && h.keyCalc)
          && (o.submit.Some? ==> h.pendingOp.None? && o.h.pendingOp == o.submit && !o.h.completed)
          && (o.submit.None? ==> o.h.pendingOp == h.pendingOp && o.h.completed == h.completed)
          && (o.meta <==> h.step == CERTIFICATE && h.signed)
          && (o.wire.Some? <==> h.step == CERTIFICATE_VERIFY && recvMigFin)
          && (o.h.released != h.released <==> o.wire.Some?)
          && (o.wire.Some? ==> o == Out(Release(h), None, false, Some(h.buffer), Continue)))
  }

  lemma FlushKeeps(h: Hs, p: Prims, cert: bytes, recvMigFin: bool)
    requires Sound(p) && Inv(h, p, cert)
    ensures Flushed(h, p, cert, recvMigFin, SendRemain(h, p, cert, recvMigFin))
  {
    if h.step == SERVER_HELLO && h.keyCalc {
      CertificatesFlushed(h, p, cert, recvMigFin);
    } else if h.step == CERTIFICATE && h.signed {
      FinishFlushed(h, p, cert, recvMigFin);
    } else if h.step == CERTIFICATE_VERIFY && recvMigFin {
      ReleaseKeeps(h, p, cert);
    } else {
      assert SendRemain(h, p, cert, recvMigFin) == Quiet(h);
    }
  }

  lemma CertificatesFlushed(h: Hs, p: Prims, cert: bytes, recvMigFin: bool)
    requires Sound(p) && Inv(h, p, cert) && h.step == SERVER_HELLO && h.keyCalc
    ensures Flushed(h, p, cert, recvMigFin, SendRemain(h, p, cert, recvMigFin))
  {
    CertsKeep(h, p, cert);
    var sent := SendCertificates(h, p, cert);
    assert SendRemain(h, p, cert, recvMigFin) == FromOption(h, sent, Some(Signature), false);
    if sent.Some? {
      BeforeRelease(sent.value, p, cert);
      BeforeRelease(h, p, cert);
    }
  }

  lemma FinishFlushed(h: Hs, p: Prims, cert: bytes, recvMigFin: bool)
    requires Sound(p) && Inv(h, p, cert) && h.step == CERTIFICATE && h.signed
    ensures Flushed(h, p, cert, recvMigFin, SendRemain(h, p, cert, recvMigFin))
  {
    FinishKeeps(h, p, cert);
    var sent := SendVerifyAndFinished(h, p);
    assert SendRemain(h, p, cert, recvMigFin) == FromOption(h, sent, None, true);
    if sent.Some? {
      BeforeRelease(sent.value, p, cert);
      BeforeRelease(h, p, cert);
    }
  }

  /** Before the release: which request is out, and that an answer is to a request. */
  lemma BeforeRelease(h: Hs, p: Prims, cert: bytes)
    requires Inv(h, p, cert) && (h.step == SERVER_HELLO || h.step == CERTIFICATE || h.step == CERTIFICATE_VERIFY)
    ensures !h.released && h.pendingOp == ExpectedOp(h) && (h.pendingOp.None? ==> !h.completed)
  {}

  /** Reading never takes a fatal exit, and an aborted session is a cleared one. */
  lemma OutcomeKeeps(h: Hs, p: Prims, cert: bytes, o: Out)
    requires ReadOutcome(h, p, cert, o)
    ensures o.verdict != Exit && Inv(After(h, o), p, cert)
  {
    if o.verdict == Abort {
      InitInv(o.h.serverRecords, p, cert);
    }
  }

  lemma ReadEventKeeps(h: Hs, p: Prims, cert: bytes, e: Event)
    requires Inv(h, p, cert) && Enabled(h, e) && (e.Packet? || e.Drain?)
    ensures ReadOutcome(h, p, cert, Apply(h, p, cert, e))
  {
    if e.Packet? {
      PacketKeeps(h, p, cert, e.r);
    } else if h.recvQ != [] && !h.waiting {
      DrainKeeps(h, p, cert);
    } else {
      assert Apply(h, p, cert, e) == Quiet(h);
    }
  }

  /** An enabled event ends the process exactly when one of the arrays runs full or the record layer stops it,
      and keeps the invariant otherwise. */
  lemma EventKeeps(h: Hs, p: Prims, cert: bytes, e: Event)
    requires Sound(p) && Inv(h, p, cert) && Enabled(h, e)
    ensures Apply(h, p, cert, e).verdict == Exit <==> Overflows(h, cert, e)
    ensures !Overflows(h, cert, e) ==> Inv(After(h, Apply(h, p, cert, e)), p, cert)
  {
    var o := Apply(h, p, cert, e);
    if e.Packet? || e.Drain? {
      ReadEventKeeps(h, p, cert, e);
      OutcomeKeeps(h, p, cert, o);
    } else if e.Result? {
      ResultKeeps(h, p, cert, e.result);
    } else if e.Resumption? {
      ResumptionKeeps(h, p, cert, e.random);
    } else if e.Flush? {
      FlushKeeps(h, p, cert, e.recvMigFin);
    } else if e.Recycle? {
      InitInv(h.serverRecords, p, cert);
    }
  }

  // ---------------------------------------------------------------- whole runs

  /** One step of a process that goes on. */
  ghost predicate Steps(h: Hs, e: Event, h': Hs, p: Prims, cert: bytes)
  {
    Enabled(h, e) && Apply(h, p, cert, e).verdict != Exit && h' == After(h, Apply(h, p, cert, e))
  }

  /** `run` is a sequence of states linked by enabled events, from a cleared slot. */
  ghost predicate Run(run: seq<Hs>, events: seq<Event>, p: Prims, cert: bytes)
  {
    && |run| == |events| + 1
    && (exists r :: run[0] == Cleared(r))
    && (forall i :: 0 <= i < |events| ==> Steps(run[i], events[i], run[i + 1], p, cert))
  }

  /** In every reachable state the invariant holds, and what ends the process next is exactly an array running
      full, a length field that is too large or an empty record pool. */
  lemma {:induction false} RunInv(run: seq<Hs>, events: seq<Event>, p: Prims, cert: bytes, i: nat)
    requires Sound(p) && Run(run, events, p, cert) && i < |run|
    ensures Inv(run[i], p, cert)
    ensures forall e :: Enabled(run[i], e) ==>
            (Apply(run[i], p, cert, e).verdict == Exit <==> Overflows(run[i], cert, e))
    decreases i
  {
    if i == 0 {
      var r :| run[0] == Cleared(r);
      InitInv(r, p, cert);
    } else {
      RunInv(run, events, p, cert, i - 1);
      assert Steps(run[i - 1], events[i - 1], run[i - 1 + 1], p, cert);
      EventKeeps(run[i - 1], p, cert, events[i - 1]);
    }
    ExitsExactly(run[i], p, cert);
  }

  lemma ExitsExactly(h: Hs, p: Prims, cert: bytes)
    requires Sound(p) && Inv(h, p, cert)
    ensures forall e :: Enabled(h, e) ==> (Apply(h, p, cert, e).verdict == Exit <==> Overflows(h, cert, e))
  {
    forall e | Enabled(h, e)
      ensures Apply(h, p, cert, e).verdict == Exit <==> Overflows(h, cert, e)
    {
      EventKeeps(h, p, cert, e);
    }
  }

  /** Transcript discipline in every reachable state: each hash the session has taken covered exactly the
      messages sections 4.4.1 and 7.1 of RFC 8446 prescribe, in their order, and the keys are the RFC's. */
  lemma TranscriptDiscipline(run: seq<Hs>, events: seq<Event>, p: Prims, cert: bytes, i: nat)
    requires Sound(p) && Run(run, events, p, cert) && i < |run|
    ensures var h := run[i];
            && |h.msgs| <= 6 && TypesAre(h.msgs, |h.msgs|) && h.transcript == Flatten(h.msgs)
            && (h.uses.hsKeys.Some? ==>
                  |h.msgs| >= 2 && h.uses.hsKeys.value == Flatten(h.msgs[..2])
                  && h.keys == RfcHandshakeKeys(p, h.dhe, Flatten(h.msgs[..2])))
            && (h.uses.certVerify.Some? ==> |h.msgs| >= 4 && h.uses.certVerify.value == Flatten(h.msgs[..4]))
            && (|h.msgs| > 2 ==> h.msgs[2] == EncryptedExtensionsMsg())
            && (|h.msgs| > 3 ==> h.msgs[3] == CertificateMsg(cert))
            && (|h.msgs| > 4 ==> h.msgs[4] == CertificateVerifyMsg(h.sigAlg, h.signature))
            && (h.uses.serverFin.Some? ==> |h.msgs| == 6 && h.uses.serverFin.value == Flatten(h.msgs[..5]))
            && (|h.msgs| == 6 ==>
                  h.msgs[5] == FinishedMsg(FinishedMac(p, h.keys.serverSecret, Flatten(h.msgs[..5]))))
            && (h.uses.appKeys.Some? ==>
                  |h.msgs| == 6 && h.uses.appKeys.value == Flatten(h.msgs[..6])
                  && h.app == RfcAppKeys(p, h.dhe, Flatten(h.msgs[..6])))
            && (h.uses.clientFin.Some? ==>
                  |h.msgs| == 6 && h.uses.clientFin.value == Flatten(h.msgs[..6])
                  && h.vd == FinishedMac(p, h.keys.clientSecret, Flatten(h.msgs[..6])))
            && (h.state.Active? ==>
                  h.released && h.uses.clientFin.Some?
                  && h.accepted == Some(FinishedMac(p, h.keys.clientSecret, Flatten(h.msgs[..6]))))
  {
    RunInv(run, events, p, cert, i);
    var h := run[i];
    UptoAll(h.msgs);
    assert h.msgs[..|h.msgs|] == h.msgs;
  }

  /** No nonce repeats under a server handshake key, and the two counters that the code compares before
      sealing are always equal to the number of records sealed. */
  lemma NoncesNeverRepeat(run: seq<Hs>, events: seq<Event>, p: Prims, cert: bytes, i: nat)
    requires Sound(p) && Run(run, events, p, cert) && i < |run|
    ensures var h := run[i];
            && h.sendSeq == h.ivSeq == |h.nonces|
            && forall j, k :: 0 <= j < k < |h.nonces| ==> h.nonces[j] != h.nonces[k]
  {
    RunInv(run, events, p, cert, i);
    var h := run[i];
    forall j, k | 0 <= j < k < |h.nonces|
      ensures h.nonces[j] != h.nonces[k]
    {
      if h.nonces[j] == h.nonces[k] {
        NonceInjective(Fit(h.keys.serverIv, 12), j, k);
      }
    }
  }

  // ---------------------------------------------------------------- the flight

  lemma {:induction false} FlattenLength(parts: seq<bytes>, k: nat)
    requires k <= |parts|
    ensures |Flatten(parts)| == |Flatten(parts[..k])| + |Flatten(parts[k..])|
  {
    assert parts == parts[..k] + parts[k..];
    FlattenAppend(parts[..k], parts[k..]);
  }

  lemma FlattenTwo(a: bytes, b: bytes)
    ensures Flatten([a, b]) == a + b
  {
    assert [a, b][..1] == [a] && [a][..0] == [];
    assert Flatten([a]) == a;
  }

  lemma FlattenFive(r: seq<bytes>)
    requires |r| == 5
    ensures |Flatten(r)| == |r[0]| + |r[1]| + |r[2]| + |r[3]| + |r[4]|
  {
    assert r[..4][..3] == r[..3] && r[..3][..2] == r[..2] && r[..2][..1] == r[..1] && r[..1][..0] == [];
    assert Flatten(r[..1]) == r[0];
    assert |Flatten(r[..2])| == |r[0]| + |r[1]|;
    assert |Flatten(r[..3])| == |r[0]| + |r[1]| + |r[2]|;
    assert |Flatten(r[..4])| == |r[0]| + |r[1]| + |r[2]| + |r[3]|;
  }

  /** How long the transcript is once the ServerHello, the Certificate and the Finished are in it. */
  lemma TranscriptLength(h: Hs, p: Prims, cert: bytes)
    requires Inv(h, p, cert) && h.step != HELLO_REQUEST
    ensures |h.transcript| == |h.msgs[0]| + 122
              + (if |h.msgs| >= 4 then |cert| + 19 else 0) + (if |h.msgs| == 6 then |h.signature| + 60 else 0)
  {
    var m := h.msgs;
    FlattenLength(m, 2);
    assert m[..2] == [m[0], m[1]];
    FlattenTwo(m[0], m[1]);
    if |m| >= 4 {
      FlattenLength(m[2..], 2);
      assert m[2..][..2] == [m[2], m[3]];
      FlattenTwo(m[2], m[3]);
      assert m[2..][2..] == m[4..];
      if |m| == 6 {
        assert m[4..] == [m[4], m[5]];
        FlattenTwo(m[4], m[5]);
      }
    }
  }

  /** How much longer the flight is than certificate and signature together. */
  function FlightOverhead(gcm: bool): nat { if gcm then 294 else 230 }

  lemma FlightLength(h: Hs, p: Prims, cert: bytes)
    requires Sound(p) && Inv(h, p, cert) && |h.msgs| == 6
    ensures |Flatten(h.records)| == |cert| + |h.signature| + FlightOverhead(h.pendingGcm)
  {
    forall i | 0 <= i < 5
      ensures |h.records[i]| == |h.msgs[i + 1]| + (if i == 0 then 5 else if h.pendingGcm then 22 else 6)
    {
      RecordLength(p, h.keys, h.version, h.writeGcm, h.msgs[i + 1], i + 1);
    }
    FlattenFive(h.records);
  }

  /** What fits both handshake_msgs and server_records. */
  predicate SizesFit(raw: nat, cert: nat, signature: nat, gcm: bool)
  {
    raw + cert + signature + 201 < MAX_HANDSHAKE && cert + signature + FlightOverhead(gcm) <= SERVER_RECORDS
  }

  /** A released flight fitted, so no session completes whose sizes do not. */
  lemma ReleasedFitted(h: Hs, p: Prims, cert: bytes)
    requires Sound(p) && Inv(h, p, cert) && h.released
    ensures SizesFit(|h.msgs[0]|, |cert|, |h.signature|, h.pendingGcm)
  {
    TranscriptLength(h, p, cert);
    FlightLength(h, p, cert);
  }

  /** With room for the longest signature, 72 bytes, neither handshake_msgs nor server_records runs full, and only
      the record layer ends the process. */
  lemma SmallSurvives(h: Hs, p: Prims, cert: bytes, e: Event, raw: nat)
    requires Sound(p) && Inv(h, p, cert) && Enabled(h, e)
    requires (h.held.Some? ==> |h.held.value.raw| <= raw) && (h.msgs != [] ==> |h.msgs[0]| <= raw)
    requires SizesFit(raw, |cert|, 72, true)
    ensures Apply(h, p, cert, e).verdict == Exit <==> ReaderStops(e)
  {
    EventKeeps(h, p, cert, e);
    if h.step != HELLO_REQUEST {
      TranscriptLength(h, p, cert);
      if h.step == CERTIFICATE_VERIFY {
        FlightLength(h, p, cert);
      }
    }
  }

  /** A client that derives the same handshake keys opens record i + 1 of the flight with nonce i and
      finds transcript message i + 2 followed by the handshake content type. */
  lemma ClientOpensFlight(h: Hs, p: Prims, cert: bytes, i: nat)
    requires Sound(p) && Inv(h, p, cert) && h.pendingGcm && 1 <= i < |h.records|
    ensures var r := h.records[i];
            && |r| > 5
            && p.open(h.keys.serverKey, Nonce(Fit(h.keys.serverIv, 12), i - 1), r[..5], r[5..])
               == Some(h.msgs[i + 1] + [HANDSHAKE])
  {
    var r := h.records[i];
    var inner := h.msgs[i + 1] + [HANDSHAKE];
    var nonce := Nonce(Fit(h.keys.serverIv, 12), i - 1);
    assert r == SealedRecord(p, h.keys.serverKey, nonce, h.version, h.msgs[i + 1]);
    var header := RecordHeader(APPLICATION_DATA, h.version, |inner| + TAG);
    assert r == header + p.seal(h.keys.serverKey, nonce, header, inner);
    assert r[..5] == header && r[5..] == p.seal(h.keys.serverKey, nonce, header, inner);
  }

  /** Once released the flight is kept for retransmission as long as the session lasts. */
  lemma ReleasedStays(h: Hs, p: Prims, cert: bytes, e: Event)
    requires Inv(h, p, cert) && Enabled(h, e) && h.released && !e.Recycle?
    ensures var o := Apply(h, p, cert, e);
            o.verdict == Continue ==> o.h.released && o.h.serverRecords == h.serverRecords && o.h.records == h.records
  {
    match e
    case Packet(r) => ReadStays(h, p, r);
    case Drain =>
      if h.recvQ != [] {
        ReadStays(h.(recvQ := h.recvQ[1..]), p, h.recvQ[0]);
      }
    case Flush(fin) => assert SendRemain(h, p, cert, fin) == Quiet(h);
    case Resumption(random) => assert GetProcessed(h, p, random) == Quiet(h);
    case _ =>
  }

  lemma ReadStays(h: Hs, p: Prims, r: Rec)
    requires h.released && !h.waiting && h.step >= CERTIFICATE_VERIFY
    ensures var o := ProcessRead(h, p, r);
            o.h.released && o.h.serverRecords == h.serverRecords && o.h.records == h.records
  {
    var o := ProcessRead(h, p, r);
    if r.DataRec? {
      var clear := p.open(h.keys.clientKey, Nonce(Fit(h.keys.clientIv, 12), 0), r.header, r.body);
      assert o == Quiet(h) || o == HandleInner(h, r.body) || (clear.Some? && o == HandleInner(h, clear.value));
    } else if r.CcsRec? {
      assert o == Quiet(h) || o == HandleCcs(h);
    } else {
      assert o.h == h;
    }
  }

  /** What a client with the session's handshake keys reads in record `i` of the flight. */
  function Read(h: Hs, p: Prims, i: nat): Option<bytes>
    requires 1 <= i < |h.records| < 100
  {
    var r := h.records[i];
    if |r| < 5 then None
    else if h.pendingGcm then p.open(h.keys.serverKey, Nonce(Fit(h.keys.serverIv, 12), i - 1), r[..5], r[5..])
    else Some(r[5..])
  }

  /** Every protected record of the flight is an application-data record in which the client reads the next message
      of the transcript. */
  lemma ClientReads(h: Hs, p: Prims, cert: bytes, i: nat)
    requires Sound(p) && Inv(h, p, cert) && 1 <= i < |h.records|
    ensures |h.records[i]| > 5 && h.records[i][0] == APPLICATION_DATA && h.records[i][1..3] == h.version
    ensures Read(h, p, i) == Some(h.msgs[i + 1] + [HANDSHAKE])
  {
    var r := h.records[i];
    if h.pendingGcm {
      ClientOpensFlight(h, p, cert, i);
    } else {
      assert r == PlainRecord(APPLICATION_DATA, h.version, h.msgs[i + 1] + [HANDSHAKE]);
    }
  }

  /** The client authenticates the server: in the flight it reads the certificate, a CertificateVerify with the
      signature under the chosen algorithm, and a Finished whose verify_data is the one section 4.4.4 of RFC 8446
      computes from the server handshake secret over the five messages before it. */
  lemma ClientVerifiesServer(h: Hs, p: Prims, cert: bytes)
    requires Sound(p) && Inv(h, p, cert) && |h.records| == 5
    ensures Read(h, p, 2).Some? && Read(h, p, 3).Some? && Read(h, p, 4).Some?
    ensures var c, cv, fin := Read(h, p, 2).value, Read(h, p, 3).value, Read(h, p, 4).value;
            && |c| == |cert| + 14 && c[0] == 11 && c[11..11 + |cert|] == cert
            && |cv| == |h.signature| + 9 && cv[0] == 15
            && cv[4..6] == h.sigAlg && cv[8..8 + |h.signature|] == h.signature
            && |fin| == 53 && fin[0] == 20
            && fin[4..52] == FinishedMac(p, h.keys.serverSecret, Flatten(h.msgs[..5]))
  {
    ClientReads(h, p, cert, 2);
    ClientReads(h, p, cert, 3);
    ClientReads(h, p, cert, 4);
    CertificateRead(cert);
    CertificateVerifyReadsBack(h.sigAlg, h.signature);
    var mac := FinishedMac(p, h.keys.serverSecret, Flatten(h.msgs[..5]));
    assert |mac| == 48;
    FinishedReadsBack(mac);
  }

  lemma CertificateRead(cert: bytes)
    ensures CertificateMsg(cert)[11..11 + |cert|] == cert
  {}

  // ---------------------------------------------------------------- where the order of events matters

  /** A record from the client that HandleFinished would accept against the stored verify_data. */
  predicate Forges(h: Hs, body: bytes)
  {
    body != [] && body[|body| - 1] == HANDSHAKE && (body + Zeros(52))[4..52] == Fit(h.vd, 48)
  }

  /** A ChangeCipherSpec or protected record keeps the session's invariant exactly when the flight is out,
      or it is data that does not pass for a Finished against the verify_data stored so far. */
  lemma EarlyRecordIff(h: Hs, p: Prims, cert: bytes, r: Rec)
    requires Inv(h, p, cert) && (r.CcsRec? || r.DataRec?)
    ensures Inv(After(h, Arrive(h, p, r)), p, cert) <==>
              h.released || (r.DataRec? && !h.waiting && !Forges(h, r.body))
  {
    if h.released {
      PacketKeeps(h, p, cert, r);
      OutcomeKeeps(h, p, cert, Arrive(h, p, r));
    } else if h.waiting {
      var h1 := Arrive(h, p, r).h;
      assert h1.recvQ[|h.recvQ|] == r;
    } else if r.DataRec? {
      assert ProcessRead(h, p, r) == HandleInner(h, r.body);
      EarlyData(h, p, cert, r.body);
    } else {
      assert Arrive(h, p, r) == Quiet(h.(step := CLIENT_CIPHER_SPEC, readGcm := h.pendingGcm));
    }
  }

  lemma EarlyData(h: Hs, p: Prims, cert: bytes, body: bytes)
    requires Inv(h, p, cert) && !h.released
    ensures var h1 := After(h, HandleInner(h, body));
            if Forges(h, body) then h1.state.Active? && !h1.released && h1.msgs == h.msgs && h1.step == FINISHED
            else Inv(h1, p, cert)
  {
    var o := HandleInner(h, body);
    if body != [] && body[|body| - 1] == HANDSHAKE {
      assert o == HandleFinished(h, (body + Zeros(52))[4..52]);
      EarlyFinished(h, p, cert, (body + Zeros(52))[4..52]);
    } else {
      assert o == Quiet(h);
    }
  }

  lemma EarlyFinished(h: Hs, p: Prims, cert: bytes, verifyData: bytes)
    requires Inv(h, p, cert) && !h.released
    ensures var h1 := After(h, HandleFinished(h, verifyData));
            if verifyData == Fit(h.vd, 48)
            then h1.state.Active? && !h1.released && h1.msgs == h.msgs && h1.step == FINISHED
            else Inv(h1, p, cert)
  {
    InitInv(h.serverRecords, p, cert);
    assert h.step < FINISHED;
  }

  /** What can follow at a session whatever the client sends, as long as the record layer goes on; only the
      hardware keeps to its requests. */
  predicate Possible(h: Hs, e: Event)
  {
    match e
    case Result(_) => h.pendingOp.Some? && !h.completed
    case Recycle => false
    case _ => !ReaderStops(e)
  }

  ghost predicate Continues(path: seq<Hs>, events: seq<Event>, p: Prims, cert: bytes)
  {
    && |path| == |events| + 1
    && forall i :: 0 <= i < |events| ==>
         && Possible(path[i], events[i])
         && Apply(path[i], p, cert, events[i]).verdict == Continue
         && path[i + 1] == Apply(path[i], p, cert, events[i]).h
  }

  /** The flight was not released and handshake_state is past every branch that would release it. */
  predicate Derailed(h: Hs)
  {
    !h.released && !h.waiting && (h.step == CLIENT_CIPHER_SPEC || h.step == FINISHED)
  }

  lemma DerailedStays(h: Hs, p: Prims, cert: bytes, e: Event)
    requires Derailed(h) && Possible(h, e) && (h.completed ==> h.pendingOp.Some?)
    ensures var o := Apply(h, p, cert, e);
            && (o.verdict == Exit <==> e.Resumption? && h.completed)
            && (o.verdict == Continue ==>
                  && Derailed(o.h) && o.h.pendingOp == h.pendingOp && (o.h.completed ==> o.h.pendingOp.Some?))
  {
    match e
    case Packet(r) => DerailedReads(h, p, r);
    case Drain =>
      if h.recvQ != [] {
        DerailedReads(h.(recvQ := h.recvQ[1..]), p, h.recvQ[0]);
      }
    case Result(_) =>
    case Resumption(_) =>
    case Flush(fin) => assert SendRemain(h, p, cert, fin) == Quiet(h);
    case Header(_) =>
  }

  lemma DerailedReads(h: Hs, p: Prims, r: Rec)
    requires Derailed(h)
    ensures var o := ProcessRead(h, p, r);
            && o.verdict != Exit && o.h.pendingOp == h.pendingOp && o.h.completed == h.completed && Derailed(o.h)
  {
    var o := ProcessRead(h, p, r);
    if r.CcsRec? {
      assert o == Quiet(h) || o == HandleCcs(h);
    } else if r.DataRec? {
      var clear := p.open(h.keys.clientKey, Nonce(Fit(h.keys.clientIv, 12), 0), r.header, r.body);
      if !h.readGcm {
        DerailedInner(h, r.body);
        assert o == HandleInner(h, r.body);
      } else if h.state.Active? || clear.None? {
        assert o == Quiet(h);
      } else {
        DerailedInner(h, clear.value);
        assert o == HandleInner(h, clear.value);
      }
    } else {
      assert o.h == h;
    }
  }

  lemma DerailedInner(h: Hs, content: bytes)
    requires Derailed(h)
    ensures var o := HandleInner(h, content);
            o.verdict != Exit && o.h.pendingOp == h.pendingOp && o.h.completed == h.completed && Derailed(o.h)
  {
    if content != [] && content[|content| - 1] == HANDSHAKE {
      assert HandleInner(h, content) == HandleFinished(h, (content + Zeros(52))[4..52]);
    } else {
      assert HandleInner(h, content) == Quiet(h);
    }
  }

  /** Nothing that can follow releases a derailed session's flight. */
  lemma {:induction false} DerailedForever(path: seq<Hs>, events: seq<Event>, p: Prims, cert: bytes, i: nat)
    requires Continues(path, events, p, cert) && i < |path|
    requires Derailed(path[0]) && (path[0].completed ==> path[0].pendingOp.Some?)
    ensures Derailed(path[i]) && path[i].pendingOp == path[0].pendingOp
            && (path[i].completed ==> path[i].pendingOp.Some?)
    decreases i
  {
    if i > 0 {
      DerailedForever(path, events, p, cert, i - 1);
      DerailedStays(path[i - 1], p, cert, events[i - 1]);
    }
  }

  ghost predicate DiesAlong(h: Hs, path: seq<Hs>, events: seq<Event>, e: Event, p: Prims, cert: bytes)
  {
    && Continues(path, events, p, cert) && path[0] == h
    && Possible(path[|events|], e) && Apply(path[|events|], p, cert, e).verdict == Exit
  }

  /** Some continuation ends in a fatal exit. */
  ghost predicate CanDie(h: Hs, p: Prims, cert: bytes)
  {
    exists path, events, e :: DiesAlong(h, path, events, e, p, cert)
  }

  /** A ChangeCipherSpec that reaches an idle session before the flight is out keeps it from ever being
      released; and the process can end in the fatal exit of get_processed_crypto exactly when a PKA request
      is outstanding, answered or not. */
  lemma EarlyCcsDerails(h: Hs, p: Prims, cert: bytes)
    requires Inv(h, p, cert) && !h.waiting && !h.released
    ensures Derailed(Arrive(h, p, CcsRec).h)
    ensures CanDie(Arrive(h, p, CcsRec).h, p, cert) <==> h.pendingOp.Some?
  {
    var h1 := h.(step := CLIENT_CIPHER_SPEC, readGcm := h.pendingGcm);
    assert Arrive(h, p, CcsRec).h == h1;
    if h.pendingOp.Some? {
      DiesWhenAnswered(h1, p, cert);
    } else {
      forall path, events, e
        ensures !DiesAlong(h1, path, events, e, p, cert)
      {
        if DiesAlong(h1, path, events, e, p, cert) {
          DerailedForever(path, events, p, cert, |events|);
          DerailedStays(path[|events|], p, cert, e);
        }
      }
    }
  }

  lemma DiesWhenAnswered(h: Hs, p: Prims, cert: bytes)
    requires Derailed(h) && h.pendingOp.Some?
    ensures CanDie(h, p, cert)
  {
    var e := Resumption(Zeros(32));
    if h.completed {
      DerailedStays(h, p, cert, e);
      assert DiesAlong(h, [h], [], e, p, cert);
    } else {
      var answer := Result(([], []));
      var h1 := PostResult(h, ([], []));
      assert Apply(h, p, cert, answer) == Quiet(h1);
      DerailedStays(h1, p, cert, e);
      assert DiesAlong(h, [h, h1], [answer], e, p, cert);
    }
  }
}
