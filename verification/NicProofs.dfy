/** What holds of a NIC connection whatever the client and the host send: no assumption on the order of
    client records is made here. */
module NicProofs {
  import opened Bytes
  import opened Tls
  import opened Handshake
  import opened SeqNum
  import opened Segments
  import opened Session
  import opened Nic

  // ---------------------------------------------------------------- the session, for any client

  /** An active session is in one of the last two states and has compared a client verify_data equal to the
      stored one, which for a disorderly client may be the one a cleared slot holds. */
  ghost predicate Settled(h: Hs)
  {
    h.state.Active? ==>
      (h.step == FINISHED || h.step == CLIENT_CIPHER_SPEC) && h.accepted == Some(Fit(h.vd, 48))
  }

  /** What one session routine does to the fields the handoff depends on. */
  ghost predicate Handoff(h: Hs, o: Out, mayRelease: bool)
  {
    && Settled(o.h)
    && (h.step >= CERTIFICATE_VERIFY ==> o.h.step >= CERTIFICATE_VERIFY && o.h.app == h.app)
    && (h.step >= CERTIFICATE_VERIFY && o.h.step == CERTIFICATE_VERIFY ==>
          h.step == CERTIFICATE_VERIFY && o.h.buffer == h.buffer)
    && (o.meta ==> o.h.step == CERTIFICATE_VERIFY && o.wire == None)
    && (o.h.released && !h.released ==> mayRelease)
    && (h.released ==> o.h.released)
    && (o.wire.Some? ==> o.h.released || h.step == FINISHED)
    && (h.state.Active? ==> o.h.state.Active?)
  }

  lemma FinishedHandoff(h: Hs, verifyData: bytes)
    requires Settled(h)
    ensures var o := HandleFinished(h, verifyData); o.verdict == Continue ==> Handoff(h, o, false)
  {}

  lemma InnerHandoff(h: Hs, content: bytes)
    requires Settled(h)
    ensures var o := HandleInner(h, content); o.verdict == Continue ==> Handoff(h, o, false)
  {
    if content != [] && content[|content| - 1] == HANDSHAKE {
      FinishedHandoff(h, (content + Zeros(52))[4..52]);
    } else {
      assert HandleInner(h, content) == Quiet(h);
    }
  }

  lemma DataHandoff(h: Hs, p: Prims, header: bytes, body: bytes)
    requires Settled(h)
    ensures var o := ProcessRead(h, p, DataRec(header, body)); o.verdict == Continue ==> Handoff(h, o, false)
  {
    var o := ProcessRead(h, p, DataRec(header, body));
    var clear := p.open(h.keys.clientKey, Nonce(Fit(h.keys.clientIv, 12), 0), header, body);
    if !h.readGcm {
      InnerHandoff(h, body);
      assert o == HandleInner(h, body);
    } else if h.state.Active? || clear.None? {
      assert o == Quiet(h);
    } else {
      InnerHandoff(h, clear.value);
      assert o == HandleInner(h, clear.value);
    }
  }

  lemma CcsHandoff(h: Hs, p: Prims)
    requires Settled(h)
    ensures Handoff(h, ProcessRead(h, p, CcsRec), false)
  {
    if h.readGcm && !h.state.Active? {
      assert ProcessRead(h, p, CcsRec) == Quiet(h);
    } else {
      assert ProcessRead(h, p, CcsRec) == HandleCcs(h);
    }
  }

  lemma ReadHandoff(h: Hs, p: Prims, r: Rec)
    requires Settled(h)
    ensures var o := ProcessRead(h, p, r); o.verdict == Continue ==> Handoff(h, o, false)
  {
    var o := ProcessRead(h, p, r);
    if r.DataRec? {
      DataHandoff(h, p, r.header, r.body);
    } else if r.CcsRec? {
      CcsHandoff(h, p);
    } else if r.HelloRec? && h.step < CLIENT_HELLO && r.ch.supported {
      assert o == GenerateKeyPair(h, r.ch);
    } else {
      assert o.h == h;
    }
  }

  lemma SecretHandoff(h: Hs, p: Prims)
    requires Settled(h) && h.step == SERVER_HELLO
    ensures Handoff(h, Quiet(ClearFlags(AfterSharedSecret(h.(pendingOp := None), p))), false)
  {
    var h1 := AfterSharedSecret(h.(pendingOp := None), p);
    assert h1.step == SERVER_HELLO;
    assert h1.state == h.state;
    assert h1.released == h.released;
  }

  lemma SignatureHandoff(h: Hs)
    requires Settled(h) && h.step == CERTIFICATE
    ensures Handoff(h, Quiet(ClearFlags(AfterSignature(h.(pendingOp := None)))), false)
  {}

  lemma ResumptionHandoff(h: Hs, p: Prims, random: b32)
    requires Settled(h)
    ensures var o := GetProcessed(h, p, random); o.verdict != Abort && (o.verdict == Continue ==> Handoff(h, o, false))
  {
    var o := GetProcessed(h, p, random);
    if !h.completed {
      assert o == Quiet(h);
    } else if h.step == HELLO_REQUEST && h.held.Some? {
      HelloHandoff(h, h.held.value, random);
      var o1 := HandleClientHello(h.(pendingOp := None), h.held.value, random);
      if o1.verdict == Continue {
        assert o == o1.(h := ClearFlags(o1.h.(held := None)));
      }
    } else if h.step == SERVER_HELLO {
      SecretHandoff(h, p);
    } else if h.step == CERTIFICATE {
      SignatureHandoff(h);
    } else {
      assert o == Quiet(h).(verdict := Exit);
    }
  }

  lemma HelloHandoff(h: Hs, ch: ClientHello, random: b32)
    requires Settled(h) && h.step == HELLO_REQUEST
    ensures var o := HandleClientHello(h.(pendingOp := None), ch, random);
            && o.verdict != Abort && !o.meta
            && (o.verdict == Continue ==>
                  o.h.step == SERVER_HELLO && !o.h.state.Active? && o.h.released == h.released)
  {
    var h0 := h.(pendingOp := None);
    StoreFrame(h0, 1, ch.raw);
    var o := HandleClientHello(h0, ch, random);
    if o.verdict == Continue {
      assert o.h.step == SERVER_HELLO;
      assert o.h.state == InHandshake;
      assert o.h.released == h.released;
    }
  }

  /** Sending touches the transcript, the buffer and the counters only. */
  ghost predicate SameProgress(h: Hs, h': Hs)
  {
    && h'.state == h.state && h'.step == h.step && h'.released == h.released
    && h'.app == h.app && h'.vd == h.vd && h'.accepted == h.accepted
  }

  lemma StoreFrame(h: Hs, msgType: byte, msg: bytes)
    ensures SameProgress(h, StoreHandshake(h, msgType, msg))
  {}

  lemma SealedFrame(h: Hs, p: Prims, msgType: byte, msg: bytes)
    ensures SendSealed(h, p, msgType, msg).Some? ==> SameProgress(h, SendSealed(h, p, msgType, msg).value)
  {
    var h1 := StoreHandshake(h, msgType, msg);
    StoreFrame(h, msgType, msg);
    var o := SendSealed(h, p, msgType, msg);
    if o.Some? {
      assert o.value.state == h1.state;
      assert o.value.step == h1.step;
      assert o.value.app == h1.app;
      assert o.value.vd == h1.vd;
      assert o.value.accepted == h1.accepted;
      assert o.value.released == h1.released;
    }
  }

  lemma CertsHandoff(h: Hs, p: Prims, cert: bytes)
    requires Settled(h) && h.step == SERVER_HELLO
    ensures var o := SendCertificates(h, p, cert);
            o.Some? ==> Handoff(h, Quiet(o.value), false)
  {
    var ee, c := EncryptedExtensionsMsg(), CertificateMsg(cert);
    SealedFrame(h, p, 8, ee);
    if SendSealed(h, p, 8, ee).Some? {
      SealedFrame(SendSealed(h, p, 8, ee).value.(step := ENCRYPTED_EXTENSIONS), p, 11, c);
    }
  }

  lemma VerifyHandoff(h: Hs, p: Prims)
    requires Settled(h) && h.step == CERTIFICATE
    ensures var o := SendVerifyAndFinished(h, p);
            o.Some? ==> o.value.step == CERTIFICATE_VERIFY && !o.value.state.Active?
                        && o.value.released == h.released
  {
    var cv := CertificateVerifyMsg(h.sigAlg, h.signature);
    SealedFrame(h, p, 15, cv);
    if SendSealed(h, p, 15, cv).Some? {
      var h1 := SendSealed(h, p, 15, cv).value.(step := CERTIFICATE_VERIFY);
      var sf := FinishedMsg(FinishedMac(p, h1.keys.serverSecret, h1.transcript));
      SealedFrame(h1.(uses := h1.uses.(serverFin := Some(h1.transcript))), p, 20, sf);
    }
  }

  lemma RemainHandoff(h: Hs, p: Prims, cert: bytes, fin: bool)
    requires Settled(h)
    ensures var o := SendRemain(h, p, cert, fin); o.verdict != Abort && (o.verdict == Continue ==> Handoff(h, o, fin))
  {
    var o := SendRemain(h, p, cert, fin);
    if h.step == SERVER_HELLO && h.keyCalc {
      CertsHandoff(h, p, cert);
      assert o.h == h || Some(o.h) == SendCertificates(h, p, cert);
    } else if h.step == CERTIFICATE && h.signed {
      VerifyHandoff(h, p);
      assert o.h == h || Some(o.h) == SendVerifyAndFinished(h, p);
    } else if h.step == CERTIFICATE_VERIFY && fin && |h.buffer| > SERVER_RECORDS {
      assert o.verdict == Exit;
    } else if h.step == CERTIFICATE_VERIFY && fin {
      assert o == Out(Release(h), None, false, Some(h.buffer), Continue);
    } else {
      assert o == Quiet(h);
    }
  }

  lemma PacketHandoff(h: Hs, p: Prims, r: Rec)
    requires Settled(h)
    ensures var o := Arrive(h, p, r); o.verdict == Continue ==> Handoff(h, o, false)
  {
    if h.waiting {
      assert Arrive(h, p, r) == Quiet(h.(recvQ := h.recvQ + [r]));
    } else {
      ReadHandoff(h, p, r);
    }
  }

  lemma DrainHandoff(h: Hs, p: Prims)
    requires Settled(h)
    ensures var o := ReadQueue(h, p); o.verdict == Continue ==> Handoff(h, o, false)
  {
    if h.recvQ != [] && !h.waiting {
      ReadHandoff(h.(recvQ := h.recvQ[1..]), p, h.recvQ[0]);
    } else {
      assert ReadQueue(h, p) == Quiet(h);
    }
  }

  lemma SessionHandoff(h: Hs, p: Prims, cert: bytes, e: Event)
    requires Settled(h) && !e.Recycle?
    ensures var o := Session.Apply(h, p, cert, e);
            o.verdict == Continue ==> Handoff(h, o, e == Flush(true))
  {
    if e.Packet? {
      PacketHandoff(h, p, e.r);
    } else if e.Drain? {
      DrainHandoff(h, p);
    } else if e.Resumption? {
      ResumptionHandoff(h, p, e.random);
    } else if e.Flush? {
      RemainHandoff(h, p, cert, e.recvMigFin);
    } else if e.Result? {
      assert Session.Apply(h, p, cert, e) == Quiet(PostResult(h, e.result));
    }
  }

  // ---------------------------------------------------------------- the connection

  /** What records can make of a session that was cleared: no message of a handshake was ever sent. */
  predicate Spent(h: Hs)
  {
    !h.released && !h.signed && (h.step == HELLO_REQUEST || h.step == CLIENT_CIPHER_SPEC || h.step == FINISHED)
  }

  /** hws_applied implies hws_inserted, recv_mig_fin, STATE_ACTIVE and onload, and the facts that keep it so. */
  ghost predicate Flags(c: Conn)
  {
    && Settled(c.hs)
    && (c.hwsApplied ==> c.hwsInserted && c.recvMigFin && c.hs.state.Active? && c.onload)
    && (c.hwsInserted ==> c.hwsApplied)
    && (c.onload <==> c.hs.state.Active?)
    && (c.hs.released ==> c.recvMigFin)
    && (c.recvMigFin <==> c.matched.Some?)
    && (if c.live then !c.idle else !c.recvMigFin && !c.readyToDel && Spent(c.hs) && (c.onload ==> !c.idle))
  }

  lemma RemovedFlags(c: Conn)
    ensures Flags(Removed(c))
  {}

  /** Whatever reached the slot while it was free, the assertion of insert_tcp_connection leaves only slots
      whose flags are down; the session need not be a cleared one. */
  lemma OpenedFlags(c: Conn, inc: nat, tuple: Tuple, cookie: u32, seqNo: u32, len: u16)
    requires Flags(c) && !c.live && c.idle
    ensures var c' := Opened(c, inc, tuple, cookie, seqNo, len);
            && Flags(c') && !c'.onload && !c'.recvMigFin && !c'.hwsInserted && !c'.hwsApplied && !c'.readyToDel
            && !c'.hs.released && !c'.hs.state.Active?
  {}

  /** How an event changes what the migration protocol sees. */
  ghost predicate ConnStep(c: Conn, e: NicEvent, o: NicOut)
  {
    && Flags(o.c)
    && (o.c.live ==> c.live)
    && (o.c.live && TlsEvent(c, e).None? ==> o.c.hs == c.hs)
    && (o.c.live ==>
          && o.c.inc == c.inc && o.c.tuple == c.tuple && o.c.cookie == c.cookie
          && (o.c.matched == c.matched || (e.MigFin? && e.pair == c.header && o.c.matched == Some(c.header)))
          && (c.hs.step >= CERTIFICATE_VERIFY ==> o.c.hs.step >= CERTIFICATE_VERIFY && o.c.hs.app == c.hs.app)
          && (c.hs.step >= CERTIFICATE_VERIFY && o.c.hs.step == CERTIFICATE_VERIFY ==>
                c.hs.step == CERTIFICATE_VERIFY && o.c.hs.buffer == c.hs.buffer))
    && (o.meta.Some? ==>
          && o.c.live && o.c.hs.step == CERTIFICATE_VERIFY
          && o.meta.value == KeyMeta(c.tuple, o.c.header, o.c.hs.app, c.inc)
          && o.c.header.seqNo == Wrap32(o.c.w.recvAck + |o.c.hs.buffer|)
          && o.c.header.ackNo == Wrap32(o.c.w.recvSeq + o.c.w.recvLen + 80))
    && (o.c.live ==>
          && (o.c.w.recvAck == c.w.recvAck || (e.Segment? && o.c.w.recvAck == e.ackNo))
          && (o.c.sent == c.sent || c.hs.step == FINISHED || o.c.hs.released)
          && (c.hs.released ==> o.c.hs.released)
          && (o.c.readyToDel <==> c.readyToDel || (e.Close? && e.pair == c.header)))
    && (o.c.hs.released && !c.hs.released ==> c.recvMigFin && o.c.live)
  }

  lemma AfterTlsStep(c: Conn, e: NicEvent, o: Out, mayRelease: bool)
    requires c.live && Flags(c) && TlsEvent(c, e).Some? && o.verdict != Exit
    requires o.verdict == Continue ==> Handoff(c.hs, o, mayRelease)
    requires mayRelease ==> c.recvMigFin
    ensures ConnStep(c, e, AfterTls(c, o))
  {
    if o.verdict == Abort {
      RemovedFlags(c.(hs := o.h));
    }
  }

  lemma TcpStep(c: Conn, p: Prims, cert: bytes, e: NicEvent)
    requires c.live && Flags(c) && (e.Segment? || e.Ack? || e.Incomplete?)
    ensures ConnStep(c, e, Step(c, p, cert, e))
  {
    var c' := Step(c, p, cert, e).c;
    assert c' == c.(w := c'.w, pending := c'.pending);
  }

  lemma HostStep(c: Conn, p: Prims, cert: bytes, e: NicEvent)
    requires c.live && Flags(c) && (e.MigFin? || e.Close?)
    ensures ConnStep(c, e, Step(c, p, cert, e))
  {}

  lemma SweepStep(c: Conn, p: Prims, cert: bytes, e: NicEvent)
    requires c.live && Flags(c) && (e.Apply? || e.Remove? || e.Forward? || e.Drop?)
    ensures ConnStep(c, e, Step(c, p, cert, e))
  {
    RemovedFlags(c);
    if e.Remove? && !(c.hwsApplied && c.readyToDel) {
      assert Step(c, p, cert, e) == Silent(c);
    }
  }

  lemma InnerSpent(h: Hs, content: bytes)
    requires Spent(h)
    ensures var o := HandleInner(h, content); o.verdict == Continue ==> Spent(o.h) && !o.meta && o.wire.None?
  {
    if content != [] && content[|content| - 1] == HANDSHAKE {
      assert HandleInner(h, content) == HandleFinished(h, (content + Zeros(52))[4..52]);
    } else {
      assert HandleInner(h, content) == Quiet(h);
    }
  }

  /** Records leave a spent session spent and make it send nothing. */
  lemma ReadSpent(h: Hs, p: Prims, r: Rec)
    requires Spent(h)
    ensures var o := ProcessRead(h, p, r); o.verdict == Continue ==> Spent(o.h) && !o.meta && o.wire.None?
  {
    var o := ProcessRead(h, p, r);
    if r.DataRec? {
      var clear := p.open(h.keys.clientKey, Nonce(Fit(h.keys.clientIv, 12), 0), r.header, r.body);
      if !h.readGcm {
        InnerSpent(h, r.body);
        assert o == HandleInner(h, r.body);
      } else if h.state.Active? || clear.None? {
        assert o == Quiet(h);
      } else {
        InnerSpent(h, clear.value);
        assert o == HandleInner(h, clear.value);
      }
    } else if r.CcsRec? {
      assert o == Quiet(h) || o == HandleCcs(h);
    } else if r.HelloRec? && h.step < CLIENT_HELLO && r.ch.supported {
      assert o == GenerateKeyPair(h, r.ch);
    } else {
      assert o.h == h;
    }
  }

  lemma FreeTlsStep(c: Conn, e: NicEvent, o: Out)
    requires !c.live && Flags(c) && TlsEvent(c, e).Some? && o.verdict != Exit
    requires o.verdict == Continue ==> Handoff(c.hs, o, false) && Spent(o.h) && !o.meta && o.wire.None?
    ensures ConnStep(c, e, AfterTls(c, o)) && AfterTls(c, o).wire == []
  {
    if o.verdict == Abort {
      RemovedFlags(c.(hs := o.h));
    }
  }

  /** What reaches a free slot sends nothing from it and raises none of its steering flags. */
  lemma FreeStep(c: Conn, p: Prims, cert: bytes, e: NicEvent)
    requires !c.live && Flags(c) && (e.Record? || e.Incomplete? || e.PkaResult?)
    ensures Survives(c, p, cert, e)
    ensures ConnStep(c, e, Step(c, p, cert, e)) && Step(c, p, cert, e).wire == [] && Step(c, p, cert, e).meta == None
  {
    if e.Record? {
      PacketHandoff(c.hs, p, e.r);
      ArriveSpent(c.hs, p, e.r);
      FreeTlsStep(c, e, Arrive(c.hs, p, e.r));
    } else if e.PkaResult? {
      FreeTlsStep(c, e, Quiet(PostResult(c.hs, e.result)));
    }
  }

  lemma ArriveSpent(h: Hs, p: Prims, r: Rec)
    requires Spent(h)
    ensures var o := Arrive(h, p, r);
            o.verdict != Exit && (o.verdict == Continue ==> Spent(o.h) && !o.meta && o.wire.None?)
  {
    if h.waiting {
      assert Arrive(h, p, r) == Quiet(h.(recvQ := h.recvQ + [r]));
    } else {
      ReadSpent(h, p, r);
    }
  }

  /** Every event, from any client or host, keeps the flag invariant, at live and at free slots. */
  lemma StepKeeps(c: Conn, p: Prims, cert: bytes, e: NicEvent)
    requires Reaches(c, e) && Flags(c) && Survives(c, p, cert, e)
    ensures ConnStep(c, e, Step(c, p, cert, e))
  {
    var t := TlsEvent(c, e);
    if !c.live {
      FreeStep(c, p, cert, e);
    } else if t.Some? {
      SessionHandoff(c.hs, p, cert, t.value);
      AfterTlsStep(c, e, Session.Apply(c.hs, p, cert, t.value), t.value == Flush(true));
    } else {
      match e
      case MigFin(_) => HostStep(c, p, cert, e);
      case Close(_) => HostStep(c, p, cert, e);
      case Segment(_, _, _, _) => TcpStep(c, p, cert, e);
      case Ack(_, _, _) => TcpStep(c, p, cert, e);
      case Incomplete => TcpStep(c, p, cert, e);
      case _ => SweepStep(c, p, cert, e);
    }
  }

  /** The segment repeats the last one, starts where the NIC last acknowledged, or starts where the last one ended. */
  predicate Continues(w: Window, seqNo: u32, ackNo: u32, len: u16)
  {
    (seqNo == w.recvSeq && ackNo == w.recvAck && len == w.recvLen) || seqNo == w.sentAck || seqNo == EndOf(w)
  }

  /** The segment lies ahead of both and behind nothing. */
  predicate Ahead(w: Window, seqNo: u32, ackNo: u32)
  {
    && SeqGt(seqNo, w.sentAck) && SeqGt(seqNo, EndOf(w))
    && SeqGeq(seqNo, w.recvSeq) && SeqGeq(ackNo, w.recvAck)
  }

  /** The receive position moves to a segment exactly when it continues the stream. One that lies ahead is answered with
      an acknowledgement, any other changes nothing, and once the connection is onloaded segments are only buffered. */
  lemma AcceptsOnlyNextOrRepeat(c: Conn, seqNo: u32, ackNo: u32, len: u16, packet: bytes)
    ensures var c' := Arrived(c, seqNo, ackNo, len, packet);
            c' == if c.onload then c.(pending := packet)
                  else if Continues(c.w, seqNo, ackNo, len) then c.(w := Window(seqNo, ackNo, len, c.w.sentAck))
                  else if Ahead(c.w, seqNo, ackNo) then c.(w := c.w.(sentAck := EndOf(c.w)), idle := false)
                  else c
  {}

  /** After a SYN without payload exactly the segments that start directly behind it continue the stream. */
  lemma OpenedAccepts(c: Conn, inc: nat, tuple: Tuple, cookie: u32, synNo: u32, seqNo: u32, ackNo: u32, len: u16)
    ensures Continues(Opened(c, inc, tuple, cookie, synNo, 0).w, seqNo, ackNo, len) <==> seqNo == Wrap32(synNo + 1)
  {}

  /** Whatever is sent to the client acknowledges the end of the last accepted segment, and nothing else of the window
      moves with it. */
  lemma AcknowledgesEnd(c: Conn, p: Prims, cert: bytes, e: NicEvent)
    requires TlsEvent(c, e).Some? || e.Incomplete?
    ensures var o := Step(c, p, cert, e);
            o.c.live ==> o.c.w == if o.wire != [] || e.Incomplete? then c.w.(sentAck := EndOf(c.w)) else c.w
  {
    var t := TlsEvent(c, e);
    if t.Some? {
      WireAcknowledges(c, Session.Apply(c.hs, p, cert, t.value));
    }
  }

  lemma WireAcknowledges(c: Conn, o: Out)
    ensures var out := AfterTls(c, o);
            out.c.live ==> out.c.w == if out.wire != [] then c.w.(sentAck := EndOf(c.w)) else c.w
  {}

  /** Of the connection a removed slot held nothing survives but its incarnation, its cookie, the acknowledgement number
      in the meta header and the flight kept for retransmission. */
  lemma RemovedForgets(c: Conn, d: Conn)
    requires c.inc == d.inc && c.cookie == d.cookie && c.header.ackNo == d.header.ackNo
    requires c.hs.serverRecords == d.hs.serverRecords
    ensures Removed(c) == Removed(d) && !Removed(c).live && Removed(c).idle
  {}
}
