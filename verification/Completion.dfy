/** The handshake completes exactly when its messages fit the session's arrays: then, for all primitives and
    PKA answers, some run of the session leads from a cleared slot to an active one; otherwise a run with
    the same inputs ends the process. */
module Completion {
  import opened Bytes
  import opened Tls
  import opened Handshake
  import opened HandshakeProofs
  import opened Session
  import opened Chains
  import Der

  type Answer = (Der.Operand, Der.Operand)

  function Do(h: Hs, p: Prims, cert: bytes, e: Event): Hs
  {
    After(h, Apply(h, p, cert, e))
  }

  // ---------------------------------------------------------------- reachable sessions

  ghost predicate Reachable(h: Hs, p: Prims, cert: bytes)
  {
    exists run, events :: Run(run, events, p, cert) && run[|events|] == h
  }

  /** The event stays inside the session: nothing is sent, nobody is activated, no slot is cleared. */
  predicate Quietly(h: Hs, p: Prims, cert: bytes, e: Event)
  {
    var o := Apply(h, p, cert, e);
    && o.verdict == Continue && !o.meta && o.wire == None && !o.h.state.Active?
    && !e.Recycle? && !e.Header? && (e.Flush? ==> !e.recvMigFin)
  }

  ghost predicate QuietRun(run: seq<Hs>, events: seq<Event>, p: Prims, cert: bytes, serverRecords: bytes)
  {
    && |run| == |events| + 1 && run[0] == Cleared(serverRecords)
    && forall i :: 0 <= i < |events| ==>
         Steps(run[i], events[i], run[i + 1], p, cert) && Quietly(run[i], p, cert, events[i])
  }

  /** Reached from a cleared slot by quiet events alone. */
  ghost predicate QuietlyReached(h: Hs, p: Prims, cert: bytes, serverRecords: bytes)
  {
    exists run, events :: QuietRun(run, events, p, cert, serverRecords) && run[|events|] == h
  }

  lemma ClearedReached(p: Prims, cert: bytes, serverRecords: bytes)
    ensures QuietlyReached(Cleared(serverRecords), p, cert, serverRecords)
  {
    var run, events := [Cleared(serverRecords)], [];
    assert QuietRun(run, events, p, cert, serverRecords) && run[|events|] == Cleared(serverRecords);
  }

  lemma QuietIsReached(h: Hs, p: Prims, cert: bytes, serverRecords: bytes)
    requires QuietlyReached(h, p, cert, serverRecords)
    ensures Reachable(h, p, cert)
  {
    var run, events :| QuietRun(run, events, p, cert, serverRecords) && run[|events|] == h;
    assert Run(run, events, p, cert);
  }

  ghost function Link(p: Prims, cert: bytes): (Hs, Event, Hs) -> bool
  {
    (h, e, h') => Steps(h, e, h', p, cert)
  }

  ghost function QuietLink(p: Prims, cert: bytes): (Hs, Event, Hs) -> bool
  {
    (h, e, h') => Steps(h, e, h', p, cert) && Quietly(h, p, cert, e)
  }

  lemma RunIsChain(run: seq<Hs>, events: seq<Event>, p: Prims, cert: bytes)
    requires Run(run, events, p, cert)
    ensures Chain(Link(p, cert), run, events)
  {}

  lemma ChainIsRun(run: seq<Hs>, events: seq<Event>, p: Prims, cert: bytes, r: bytes)
    requires Chain(Link(p, cert), run, events) && run[0] == Cleared(r)
    ensures Run(run, events, p, cert)
  {
    forall i | 0 <= i < |events|
      ensures Steps(run[i], events[i], run[i + 1], p, cert)
    {
      assert Link(p, cert)(run[i], events[i], run[i + 1]);
    }
  }

  lemma QuietIsChain(run: seq<Hs>, events: seq<Event>, p: Prims, cert: bytes, r: bytes)
    requires QuietRun(run, events, p, cert, r)
    ensures Chain(QuietLink(p, cert), run, events)
  {}

  lemma ChainIsQuiet(run: seq<Hs>, events: seq<Event>, p: Prims, cert: bytes, r: bytes)
    requires Chain(QuietLink(p, cert), run, events) && run[0] == Cleared(r)
    ensures QuietRun(run, events, p, cert, r)
  {
    forall i | 0 <= i < |events|
      ensures Steps(run[i], events[i], run[i + 1], p, cert) && Quietly(run[i], p, cert, events[i])
    {
      assert QuietLink(p, cert)(run[i], events[i], run[i + 1]);
    }
  }

  lemma QuietStep(h: Hs, p: Prims, cert: bytes, serverRecords: bytes, e: Event)
    requires QuietlyReached(h, p, cert, serverRecords) && Enabled(h, e) && Quietly(h, p, cert, e)
    ensures QuietlyReached(Do(h, p, cert, e), p, cert, serverRecords)
  {
    var run, events :| QuietRun(run, events, p, cert, serverRecords) && run[|events|] == h;
    var last := Do(h, p, cert, e);
    QuietIsChain(run, events, p, cert, serverRecords);
    Grow(QuietLink(p, cert), run, events, e, last);
    var run', events' := run + [last], events + [e];
    ChainIsQuiet(run', events', p, cert, serverRecords);
    assert run'[|events'|] == last;
  }

  lemma ReachStep(h: Hs, p: Prims, cert: bytes, e: Event)
    requires Reachable(h, p, cert) && Enabled(h, e) && Apply(h, p, cert, e).verdict != Exit
    ensures Reachable(Do(h, p, cert, e), p, cert)
  {
    var run, events :| Run(run, events, p, cert) && run[|events|] == h;
    var last := Do(h, p, cert, e);
    RunIsChain(run, events, p, cert);
    Grow(Link(p, cert), run, events, e, last);
    var run', events' := run + [last], events + [e];
    var r :| run[0] == Cleared(r);
    ChainIsRun(run', events', p, cert, r);
    assert run'[|events'|] == last;
  }

  lemma ReachedInv(h: Hs, p: Prims, cert: bytes)
    requires Sound(p) && Reachable(h, p, cert)
    ensures Inv(h, p, cert)
  {
    var run, events :| Run(run, events, p, cert) && run[|events|] == h;
    RunInv(run, events, p, cert, |events|);
  }

  // ---------------------------------------------------------------- stage by stage

  predicate UsesGcm(ch: ClientHello)
  {
    SelectCipher(ch.suites) == GCM_SUITE
  }

  /** The session that `ch` opened. */
  predicate Opened(h: Hs, ch: ClientHello)
  {
    h.msgs != [] && h.msgs[0] == ch.raw && h.pendingGcm == UsesGcm(ch)
  }

  /** The session waits for the answer to `op`. */
  ghost predicate Asked(h: Hs, p: Prims, cert: bytes, step: int, op: Opcode)
  {
    Inv(h, p, cert) && h.step == step && h.pendingOp == Some(op) && !h.completed && !h.state.Active?
  }

  /** The ClientHello starts the key generation. */
  lemma HelloAsks(h: Hs, p: Prims, cert: bytes, ch: ClientHello)
    requires Inv(h, p, cert) && h.step == HELLO_REQUEST && !h.waiting && IsHello(ch) && ch.supported && !h.state.Active?
    ensures var e := Packet(HelloRec(ch)); var h' := Do(h, p, cert, e);
            Enabled(h, e) && Quietly(h, p, cert, e) && Asked(h', p, cert, HELLO_REQUEST, KeyGen) && h'.held == Some(ch)
  {
    HelloHeld(h, p, cert, ch);
    assert Apply(h, p, cert, Packet(HelloRec(ch))) == GenerateKeyPair(h, ch);
  }

  lemma AnswerPosts(h: Hs, p: Prims, cert: bytes, step: int, op: Opcode, answer: Answer)
    requires Asked(h, p, cert, step, op)
    ensures var e := Result(answer); var h' := Do(h, p, cert, e);
            && Enabled(h, e) && Quietly(h, p, cert, e)
            && Inv(h', p, cert) && h'.completed && !h'.state.Active? && h' == PostResult(h, answer)
  {
    ResultKeeps(h, p, cert, answer);
  }

  lemma KeyPairResumes(h: Hs, p: Prims, cert: bytes, ch: ClientHello, random: b32)
    requires Inv(h, p, cert) && h.completed && h.step == HELLO_REQUEST && h.held == Some(ch)
    requires |ch.raw| + 122 < MAX_HANDSHAKE
    ensures var e := Resumption(random); var h' := Do(h, p, cert, e);
            Quietly(h, p, cert, e) && Asked(h', p, cert, SERVER_HELLO, SharedSecret) && Opened(h', ch)
  {
    var o := GetProcessed(h, p, random);
    HelloKeeps(h, p, cert, random);
    GreetedFrame(h, p, cert, random);
    assert Apply(h, p, cert, Resumption(random)) == o;
    AskedNext(o.h, p, cert);
  }

  lemma AskedNext(h: Hs, p: Prims, cert: bytes)
    requires Inv(h, p, cert) && h.step == SERVER_HELLO && !h.keyCalc && !h.completed && h.state == InHandshake
    ensures Asked(h, p, cert, SERVER_HELLO, SharedSecret)
  {}

  lemma GreetedFrame(h: Hs, p: Prims, cert: bytes, random: b32)
    requires Inv(h, p, cert) && h.completed && h.step == HELLO_REQUEST && |h.held.value.raw| + 122 < MAX_HANDSHAKE
    ensures var ch := h.held.value; var o := GetProcessed(h, p, random);
            && o == Out(o.h, Some(SharedSecret), false, None, Continue)
            && o.h.state == InHandshake && !o.h.completed && !o.h.keyCalc && !o.h.signed && Opened(o.h, ch)
  {
    GreetedEffect(h, p, cert, random);
  }

  lemma SecretResumes(h: Hs, p: Prims, cert: bytes, random: b32)
    requires Inv(h, p, cert) && h.completed && h.step == SERVER_HELLO && !h.state.Active?
    ensures var e := Resumption(random); var h' := Do(h, p, cert, e);
            && Quietly(h, p, cert, e) && Inv(h', p, cert) && h'.step == SERVER_HELLO && h'.keyCalc && !h'.state.Active?
            && h'.msgs == h.msgs && h'.pendingGcm == h.pendingGcm && h'.dhe == Fit(h.result.0, 32)
  {
    SharedKeeps(h, p, cert, random);
  }

  lemma SignatureResumes(h: Hs, p: Prims, cert: bytes, random: b32)
    requires Inv(h, p, cert) && h.completed && h.step == CERTIFICATE && !h.state.Active?
    ensures var e := Resumption(random); var h' := Do(h, p, cert, e);
            && Quietly(h, p, cert, e) && Inv(h', p, cert) && h'.step == CERTIFICATE && h'.signed && !h'.state.Active?
            && h'.msgs == h.msgs && h'.pendingGcm == h.pendingGcm && h'.dhe == h.dhe
            && h'.signature == Der.DerSignature(h.result.0, h.result.1)
  {
    SignKeeps(h, p, cert, random);
  }

  /** What sending further messages leaves alone. */
  predicate SameHello(h: Hs, h': Hs)
  {
    && h'.pendingGcm == h.pendingGcm && h'.dhe == h.dhe && h'.signature == h.signature && h'.state == h.state
    && (h.msgs != [] ==> h'.msgs != [] && h'.msgs[0] == h.msgs[0]) && h'.recvQ == h.recvQ
  }

  lemma SealedKeepsHello(h: Hs, p: Prims, msgType: byte, msg: bytes)
    ensures SendSealed(h, p, msgType, msg).Some? ==> SameHello(h, SendSealed(h, p, msgType, msg).value)
  {
    var o := SendSealed(h, p, msgType, msg);
    if o.Some? && h.msgs != [] {
      assert o.value.msgs == h.msgs || o.value.msgs == h.msgs + [msg];
    }
  }

  lemma CertificatesKeepHello(h: Hs, p: Prims, cert: bytes)
    ensures SendCertificates(h, p, cert).Some? ==> SameHello(h, SendCertificates(h, p, cert).value)
  {
    var ee, c := EncryptedExtensionsMsg(), CertificateMsg(cert);
    SealedKeepsHello(h, p, 8, ee);
    if SendSealed(h, p, 8, ee).Some? {
      SealedKeepsHello(SendSealed(h, p, 8, ee).value.(step := ENCRYPTED_EXTENSIONS), p, 11, c);
    }
  }

  lemma FinishKeepsHello(h: Hs, p: Prims)
    ensures SendVerifyAndFinished(h, p).Some? ==> SameHello(h, SendVerifyAndFinished(h, p).value)
  {
    var cv := CertificateVerifyMsg(h.sigAlg, h.signature);
    SealedKeepsHello(h, p, 15, cv);
    if SendSealed(h, p, 15, cv).Some? {
      var h1 := SendSealed(h, p, 15, cv).value.(step := CERTIFICATE_VERIFY);
      var sf := FinishedMsg(FinishedMac(p, h1.keys.serverSecret, h1.transcript));
      SealedKeepsHello(h1.(uses := h1.uses.(serverFin := Some(h1.transcript))), p, 20, sf);
    }
  }

  lemma CertificatesAsk(h: Hs, p: Prims, cert: bytes)
    requires Sound(p) && Inv(h, p, cert) && h.step == SERVER_HELLO && h.keyCalc && !h.state.Active?
    requires |h.transcript| + |cert| + 19 < MAX_HANDSHAKE
    ensures var e := Flush(false); var h' := Do(h, p, cert, e);
            Quietly(h, p, cert, e) && Asked(h', p, cert, CERTIFICATE, Signature) && SameHello(h, h')
  {
    CertsKeep(h, p, cert);
    CertificatesKeepHello(h, p, cert);
  }

  /** The key meta goes out. */
  lemma MetaLeaves(h: Hs, p: Prims, cert: bytes)
    requires Sound(p) && Inv(h, p, cert) && h.step == CERTIFICATE && h.signed
    requires |h.transcript| + |h.signature| + 60 < MAX_HANDSHAKE
    ensures var o := Apply(h, p, cert, Flush(false));
            && o.verdict == Continue && o.meta && o.wire == None
            && Inv(o.h, p, cert) && o.h.step == CERTIFICATE_VERIFY && !o.h.released && SameHello(h, o.h)
  {
    FinishKeeps(h, p, cert);
    FinishKeepsHello(h, p);
  }

  lemma HeldLength(h: Hs, p: Prims, cert: bytes)
    requires Sound(p) && Inv(h, p, cert) && h.step == CERTIFICATE_VERIFY
    ensures |h.buffer| == |cert| + |h.signature| + FlightOverhead(h.pendingGcm)
  {
    FlightLength(h, p, cert);
  }

  /** The flight is on the wire and the client's answer is awaited. */
  ghost predicate Sent(h: Hs, p: Prims, cert: bytes)
  {
    Inv(h, p, cert) && h.released && h.step == FINISHED && !h.state.Active? && !h.readGcm
  }

  /** The matched mig-fin releases the flight. */
  lemma FlightLeaves(h: Hs, p: Prims, cert: bytes)
    requires Sound(p) && Inv(h, p, cert) && h.step == CERTIFICATE_VERIFY && |h.buffer| <= SERVER_RECORDS
    ensures var o := Apply(h, p, cert, Flush(true));
            && o.verdict == Continue && o.wire == Some(h.buffer) && Sent(o.h, p, cert)
            && o.h == Release(h)
  {
    FlushKeeps(h, p, cert, true);
  }

  /** The client's second flight: its ChangeCipherSpec, then its Finished under the client handshake key. */
  function ClientFinished(h: Hs, p: Prims, header: bytes): Rec
  {
    var inner := FinishedMsg(h.vd) + [HANDSHAKE];
    DataRec(header, if h.pendingGcm
                    then p.seal(h.keys.clientKey, Nonce(Fit(h.keys.clientIv, 12), 0), header, inner)
                    else inner)
  }

  lemma CcsSwitches(h: Hs, p: Prims, cert: bytes)
    requires Sent(h, p, cert)
    ensures var e := Packet(CcsRec); var h' := Do(h, p, cert, e);
            && Enabled(h, e) && Apply(h, p, cert, e).verdict == Continue && Inv(h', p, cert)
            && h' == h.(step := CLIENT_CIPHER_SPEC, readGcm := h.pendingGcm) && !h'.waiting
  {
    assert Apply(h, p, cert, Packet(CcsRec)) == Quiet(h.(step := CLIENT_CIPHER_SPEC, readGcm := h.pendingGcm));
    CcsKeeps(h, p, cert);
  }

  lemma VerifyDataInside(vd: bytes)
    requires |vd| == 48
    ensures var inner := FinishedMsg(vd) + [HANDSHAKE];
            inner != [] && inner[|inner| - 1] == HANDSHAKE && (inner + Zeros(52))[4..52] == vd
  {}

  /** The client's Finished is opened and compared. */
  lemma FinishedOpens(h: Hs, p: Prims, header: bytes)
    requires Sound(p) && |h.vd| == 48 && !h.state.Active? && h.readGcm == h.pendingGcm
    ensures ProcessRead(h, p, ClientFinished(h, p, header)) == HandleFinished(h, h.vd)
  {
    var inner := FinishedMsg(h.vd) + [HANDSHAKE];
    VerifyDataInside(h.vd);
    assert ProcessRead(h, p, ClientFinished(h, p, header)) == HandleInner(h, inner);
  }

  lemma FinishedActivates(h: Hs, p: Prims, cert: bytes, header: bytes)
    requires Sound(p) && Inv(h, p, cert) && h.released && h.step == CLIENT_CIPHER_SPEC
    requires !h.state.Active? && h.readGcm == h.pendingGcm && !h.waiting
    ensures var e := Packet(ClientFinished(h, p, header)); var h' := Do(h, p, cert, e);
            && Enabled(h, e) && Apply(h, p, cert, e).verdict == Continue
            && h'.state.Active? && h'.accepted == Some(h.vd) && SameHello(h.(state := Active), h')
  {
    FinishedOpens(h, p, header);
  }

  // ---------------------------------------------------------------- from a cleared slot

  /** ServerHello sent, the shared secret requested. */
  lemma ToAsked(p: Prims, cert: bytes, serverRecords: bytes, ch: ClientHello, a1: Answer, random: b32) returns (h: Hs)
    requires Sound(p) && IsHello(ch) && ch.supported
    ensures QuietlyReached(h, p, cert, serverRecords)
    ensures Inv(h, p, cert) && h.completed && h.step == HELLO_REQUEST && h.held == Some(ch)
  {
    h := Cleared(serverRecords);
    InitInv(serverRecords, p, cert);
    ClearedReached(p, cert, serverRecords);
    HelloAsks(h, p, cert, ch);
    QuietStep(h, p, cert, serverRecords, Packet(HelloRec(ch)));
    h := Do(h, p, cert, Packet(HelloRec(ch)));
    AnswerPosts(h, p, cert, HELLO_REQUEST, KeyGen, a1);
    QuietStep(h, p, cert, serverRecords, Result(a1));
    h := Do(h, p, cert, Result(a1));
  }

  /** The handshake keys are there, EncryptedExtensions and Certificate can go. */
  lemma ToKeys(p: Prims, cert: bytes, serverRecords: bytes, ch: ClientHello, a1: Answer, a2: Answer, random: b32)
    returns (h: Hs)
    requires Sound(p) && IsHello(ch) && ch.supported && |ch.raw| + 122 < MAX_HANDSHAKE
    ensures QuietlyReached(h, p, cert, serverRecords) && Inv(h, p, cert) && Opened(h, ch)
    ensures h.step == SERVER_HELLO && h.keyCalc && !h.state.Active? && h.dhe == Fit(a2.0, 32)
    ensures |h.transcript| == |ch.raw| + 122
  {
    h := ToAsked(p, cert, serverRecords, ch, a1, random);
    KeyPairResumes(h, p, cert, ch, random);
    QuietStep(h, p, cert, serverRecords, Resumption(random));
    h := Do(h, p, cert, Resumption(random));
    AnswerPosts(h, p, cert, SERVER_HELLO, SharedSecret, a2);
    QuietStep(h, p, cert, serverRecords, Result(a2));
    h := Do(h, p, cert, Result(a2));
    SecretResumes(h, p, cert, random);
    QuietStep(h, p, cert, serverRecords, Resumption(random));
    h := Do(h, p, cert, Resumption(random));
    TranscriptLength(h, p, cert);
  }

  /** The signature is there, CertificateVerify and Finished can go. */
  lemma ToSigned(p: Prims, cert: bytes, serverRecords: bytes, ch: ClientHello, a1: Answer, a2: Answer, a3: Answer,
                 random: b32)
    returns (h: Hs)
    requires Sound(p) && IsHello(ch) && ch.supported && |ch.raw| + |cert| + 141 < MAX_HANDSHAKE
    ensures QuietlyReached(h, p, cert, serverRecords) && Inv(h, p, cert) && Opened(h, ch)
    ensures h.step == CERTIFICATE && h.signed && !h.state.Active? && h.dhe == Fit(a2.0, 32)
    ensures h.signature == Der.DerSignature(a3.0, a3.1) && |h.transcript| == |ch.raw| + |cert| + 141
  {
    h := ToKeys(p, cert, serverRecords, ch, a1, a2, random);
    CertificatesAsk(h, p, cert);
    QuietStep(h, p, cert, serverRecords, Flush(false));
    h := Do(h, p, cert, Flush(false));
    AnswerPosts(h, p, cert, CERTIFICATE, Signature, a3);
    QuietStep(h, p, cert, serverRecords, Result(a3));
    h := Do(h, p, cert, Result(a3));
    SignatureResumes(h, p, cert, random);
    QuietStep(h, p, cert, serverRecords, Resumption(random));
    h := Do(h, p, cert, Resumption(random));
    TranscriptLength(h, p, cert);
  }

  /** The flight is held and the key meta sent. */
  lemma ToHeld(p: Prims, cert: bytes, serverRecords: bytes, ch: ClientHello, a1: Answer, a2: Answer, a3: Answer,
               random: b32)
    returns (h: Hs)
    requires Sound(p) && IsHello(ch) && ch.supported
    requires |ch.raw| + |cert| + |Der.DerSignature(a3.0, a3.1)| + 201 < MAX_HANDSHAKE
    ensures Reachable(h, p, cert) && Inv(h, p, cert) && Opened(h, ch) && h.step == CERTIFICATE_VERIFY
    ensures !h.state.Active? && h.signature == Der.DerSignature(a3.0, a3.1)
    ensures |h.buffer| == |cert| + |h.signature| + FlightOverhead(UsesGcm(ch))
  {
    h := ToSigned(p, cert, serverRecords, ch, a1, a2, a3, random);
    QuietIsReached(h, p, cert, serverRecords);
    MetaLeaves(h, p, cert);
    ReachStep(h, p, cert, Flush(false));
    h := Apply(h, p, cert, Flush(false)).h;
    HeldLength(h, p, cert);
  }

  /** An active session that `ch` opened and `signature` signed, with the MAC over all six messages. */
  ghost predicate Completed(h: Hs, p: Prims, ch: ClientHello, signature: bytes)
  {
    && h.state.Active? && h.released && Opened(h, ch) && h.signature == signature
    && |h.msgs| == 6 && h.accepted == Some(FinishedMac(p, h.keys.clientSecret, Flatten(h.msgs)))
  }

  lemma ActiveIsCompleted(h: Hs, p: Prims, cert: bytes, ch: ClientHello)
    requires Sound(p) && Inv(h, p, cert) && h.state.Active? && Opened(h, ch)
    ensures Completed(h, p, ch, h.signature)
  {
    UptoAll(h.msgs);
  }

  /** Whatever the answers, sizes that fit lead to an active session. */
  lemma HandshakeCompletes(p: Prims, cert: bytes, serverRecords: bytes, ch: ClientHello,
                           a1: Answer, a2: Answer, a3: Answer, random: b32, header: bytes) returns (h: Hs)
    requires Sound(p) && IsHello(ch) && ch.supported
    requires SizesFit(|ch.raw|, |cert|, |Der.DerSignature(a3.0, a3.1)|, UsesGcm(ch))
    ensures Reachable(h, p, cert) && Completed(h, p, ch, Der.DerSignature(a3.0, a3.1))
  {
    h := ToHeld(p, cert, serverRecords, ch, a1, a2, a3, random);
    FlightLeaves(h, p, cert);
    ReachStep(h, p, cert, Flush(true));
    h := Release(h);
    CcsSwitches(h, p, cert);
    ReachStep(h, p, cert, Packet(CcsRec));
    h := Do(h, p, cert, Packet(CcsRec));
    FinishedActivates(h, p, cert, header);
    ReachStep(h, p, cert, Packet(ClientFinished(h, p, header)));
    h := Do(h, p, cert, Packet(ClientFinished(h, p, header)));
    ReachedInv(h, p, cert);
    ActiveIsCompleted(h, p, cert, ch);
  }

  ghost predicate Completes(p: Prims, cert: bytes, ch: ClientHello, signature: bytes)
  {
    exists h :: Reachable(h, p, cert) && Completed(h, p, ch, signature)
  }

  /** A ClientHello can be completed with a certificate and a signature exactly when all three fit
      handshake_msgs and server_records. */
  lemma CompletesIff(p: Prims, cert: bytes, ch: ClientHello, a3: Answer)
    requires Sound(p) && IsHello(ch) && ch.supported
    ensures var signature := Der.DerSignature(a3.0, a3.1);
            Completes(p, cert, ch, signature) <==> SizesFit(|ch.raw|, |cert|, |signature|, UsesGcm(ch))
  {
    var signature := Der.DerSignature(a3.0, a3.1);
    if SizesFit(|ch.raw|, |cert|, |signature|, UsesGcm(ch)) {
      var h := HandshakeCompletes(p, cert, [], ch, ([], []), ([], []), a3, Zeros(32), []);
    }
    if h :| Reachable(h, p, cert) && Completed(h, p, ch, signature) {
      ReachedInv(h, p, cert);
      ReleasedFitted(h, p, cert);
    }
  }

  ghost predicate Dies(h: Hs, p: Prims, cert: bytes, e: Event)
  {
    Reachable(h, p, cert) && Enabled(h, e) && Apply(h, p, cert, e).verdict == Exit
  }

  /** When they do not fit, an orderly client brings the process to its end. */
  lemma OversizeDies(p: Prims, cert: bytes, ch: ClientHello, a3: Answer) returns (h: Hs, e: Event)
    requires Sound(p) && IsHello(ch) && ch.supported
    requires !SizesFit(|ch.raw|, |cert|, |Der.DerSignature(a3.0, a3.1)|, UsesGcm(ch))
    ensures Dies(h, p, cert, e)
  {
    var none: Answer := ([], []);
    var random: b32 := Zeros(32);
    e := Flush(false);
    if |ch.raw| + 122 >= MAX_HANDSHAKE {
      h := ToAsked(p, cert, [], ch, none, random);
      e := Resumption(random);
      QuietIsReached(h, p, cert, []);
    } else if |ch.raw| + |cert| + 141 >= MAX_HANDSHAKE {
      h := ToKeys(p, cert, [], ch, none, none, random);
      QuietIsReached(h, p, cert, []);
    } else if |ch.raw| + |cert| + |Der.DerSignature(a3.0, a3.1)| + 201 >= MAX_HANDSHAKE {
      h := ToSigned(p, cert, [], ch, none, none, a3, random);
      QuietIsReached(h, p, cert, []);
    } else {
      h := ToHeld(p, cert, [], ch, none, none, a3, random);
      e := Flush(true);
    }
    EventKeeps(h, p, cert, e);
  }

  // ---------------------------------------------------------------- sizes that never end the process

  /** No ClientHello in the session is longer than `raw`. */
  ghost predicate Small(h: Hs, raw: nat)
  {
    && (h.held.Some? ==> |h.held.value.raw| <= raw) && (h.msgs != [] ==> |h.msgs[0]| <= raw)
    && forall i :: 0 <= i < |h.recvQ| && h.recvQ[i].HelloRec? ==> |h.recvQ[i].ch.raw| <= raw
  }

  predicate SmallRecord(r: Rec, raw: nat)
  {
    r.HelloRec? ==> |r.ch.raw| <= raw
  }

  predicate SameHellos(h: Hs, h': Hs)
  {
    h'.msgs == h.msgs && h'.recvQ == h.recvQ && h'.held == h.held
  }

  lemma InnerFrame(h: Hs, content: bytes)
    ensures SameHellos(h, HandleInner(h, content).h)
  {
    if content != [] && content[|content| - 1] == HANDSHAKE {
      assert HandleInner(h, content) == HandleFinished(h, (content + Zeros(52))[4..52]);
    } else {
      assert HandleInner(h, content) == Quiet(h);
    }
  }

  lemma DataFrame(h: Hs, p: Prims, header: bytes, body: bytes)
    ensures SameHellos(h, ProcessRead(h, p, DataRec(header, body)).h)
  {
    var o := ProcessRead(h, p, DataRec(header, body));
    var clear := p.open(h.keys.clientKey, Nonce(Fit(h.keys.clientIv, 12), 0), header, body);
    if !h.readGcm {
      InnerFrame(h, body);
      assert o == HandleInner(h, body);
    } else if h.state.Active? || clear.None? {
      assert o == Quiet(h);
    } else {
      InnerFrame(h, clear.value);
      assert o == HandleInner(h, clear.value);
    }
  }

  /** Reading a record moves neither the transcript nor the queue, and holds only a ClientHello. */
  lemma ReadFrame(h: Hs, p: Prims, r: Rec)
    ensures var h' := ProcessRead(h, p, r).h;
            SameHellos(h, h') || (r.HelloRec? && SameHellos(h.(held := Some(r.ch)), h'))
  {
    var o := ProcessRead(h, p, r);
    if r.DataRec? {
      DataFrame(h, p, r.header, r.body);
    } else if r.CcsRec? {
      CcsFrame(h, p);
    } else if r.HelloRec? && h.step < CLIENT_HELLO && r.ch.supported {
      assert o == GenerateKeyPair(h, r.ch);
    } else {
      assert o.h == h;
    }
  }

  lemma CcsFrame(h: Hs, p: Prims)
    ensures SameHellos(h, ProcessRead(h, p, CcsRec).h)
  {
    assert ProcessRead(h, p, CcsRec) == Quiet(h) || ProcessRead(h, p, CcsRec) == HandleCcs(h);
  }

  lemma SmallOutcome(h: Hs, o: Out, r: Rec, raw: nat)
    requires Small(h, raw) && SmallRecord(r, raw)
    requires SameHellos(h, o.h) || (r.HelloRec? && SameHellos(h.(held := Some(r.ch)), o.h))
    ensures Small(After(h, o), raw)
  {}

  lemma SmallArrives(h: Hs, p: Prims, r: Rec, raw: nat)
    requires Small(h, raw) && SmallRecord(r, raw)
    ensures Small(After(h, Arrive(h, p, r)), raw)
  {
    if h.waiting {
      assert Arrive(h, p, r) == Quiet(h.(recvQ := h.recvQ + [r]));
    } else {
      ReadFrame(h, p, r);
      SmallOutcome(h, ProcessRead(h, p, r), r, raw);
    }
  }

  lemma SmallDrains(h: Hs, p: Prims, raw: nat)
    requires Small(h, raw)
    ensures Small(After(h, ReadQueue(h, p)), raw)
  {
    if h.recvQ != [] && !h.waiting {
      var h1, r := h.(recvQ := h.recvQ[1..]), h.recvQ[0];
      ReadFrame(h1, p, r);
      SmallOutcome(h1, ProcessRead(h1, p, r), r, raw);
    } else {
      assert ReadQueue(h, p) == Quiet(h);
    }
  }

  lemma SmallResumes(h: Hs, p: Prims, cert: bytes, random: b32, raw: nat)
    requires Inv(h, p, cert) && Small(h, raw) && GetProcessed(h, p, random).verdict == Continue
    ensures Small(GetProcessed(h, p, random).h, raw)
  {
    if h.completed && h.step == HELLO_REQUEST {
      HelloKeeps(h, p, cert, random);
      GreetedEffect(h, p, cert, random);
    }
  }

  lemma SmallFlushes(h: Hs, p: Prims, cert: bytes, fin: bool, raw: nat)
    requires Sound(p) && Inv(h, p, cert) && Small(h, raw) && SendRemain(h, p, cert, fin).verdict == Continue
    ensures Small(SendRemain(h, p, cert, fin).h, raw)
  {
    if h.step == SERVER_HELLO && h.keyCalc {
      CertificatesKeepHello(h, p, cert);
    } else if h.step == CERTIFICATE && h.signed {
      FinishKeepsHello(h, p);
    }
  }

  lemma SmallStays(h: Hs, p: Prims, cert: bytes, e: Event, raw: nat)
    requires Sound(p) && Inv(h, p, cert) && Enabled(h, e) && Small(h, raw) && Apply(h, p, cert, e).verdict != Exit
    requires e.Packet? ==> SmallRecord(e.r, raw)
    ensures Small(After(h, Apply(h, p, cert, e)), raw)
  {
    match e
    case Packet(r) => SmallArrives(h, p, r, raw);
    case Drain => SmallDrains(h, p, raw);
    case Resumption(random) =>
      ResumptionKeeps(h, p, cert, random);
      SmallResumes(h, p, cert, random, raw);
    case Flush(fin) =>
      FlushKeeps(h, p, cert, fin);
      SmallFlushes(h, p, cert, fin, raw);
    case Result(_) =>
    case Recycle =>
    case Header(_) =>
    case NoRecord =>
  }

  lemma {:induction false} SmallAlways(run: seq<Hs>, events: seq<Event>, p: Prims, cert: bytes, raw: nat, i: nat)
    requires Sound(p) && Run(run, events, p, cert) && i < |run|
    requires forall k :: 0 <= k < i && events[k].Packet? ==> SmallRecord(events[k].r, raw)
    ensures Small(run[i], raw)
    decreases i
  {
    if i > 0 {
      var k: nat := i - 1;
      SmallAlways(run, events, p, cert, raw, k);
      RunInv(run, events, p, cert, k);
      assert Steps(run[k], events[k], run[k + 1], p, cert);
      SmallStays(run[k], p, cert, events[k], raw);
    }
  }

  /** When the longest ClientHello leaves room for the certificate and the longest signature, neither
      handshake_msgs nor server_records runs full in any run: the process ends exactly at a length field that is
      too large or at an empty record pool. */
  lemma NeverDies(run: seq<Hs>, events: seq<Event>, p: Prims, cert: bytes, raw: nat, i: nat, e: Event)
    requires Sound(p) && Run(run, events, p, cert) && i < |run| && SizesFit(raw, |cert|, 72, true)
    requires forall k :: 0 <= k < i && events[k].Packet? ==> SmallRecord(events[k].r, raw)
    ensures Enabled(run[i], e) ==> (Apply(run[i], p, cert, e).verdict == Exit <==> ReaderStops(e))
  {
    SmallAlways(run, events, p, cert, raw, i);
    RunInv(run, events, p, cert, i);
    if Enabled(run[i], e) {
      SmallSurvives(run[i], p, cert, e, raw);
    }
  }
}
