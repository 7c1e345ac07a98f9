/** tcp_connection_t as an object around its session. Every routine keeps the steering flags in order and the
    session valid, so that the sweep of the main loop, which is a sequence of such calls, does too. */
module ConnectionObject {
  import opened Bytes
  import opened Tls
  import opened Handshake
  import HandshakeProofs
  import Session
  import opened SeqNum
  import Nic
  import NicProofs
  import Migration
  import opened SessionObject

  /** recv_mig_fin, hws_inserted, hws_applied, hws_ready_to_del and the onload flag. */
  datatype Steering = Steering(onload: bool, recvMigFin: bool, hwsInserted: bool, hwsApplied: bool, readyToDel: bool)

  /** The end of the held flight and of the client's second flight. */
  function EndPair(w: Window, flight: nat): Nic.Pair
  {
    Nic.Pair(Wrap32(w.recvAck + flight), Wrap32(w.recvSeq + w.recvLen + 80))
  }

  class TcpConnection {
    const session: SslSession
    var live: bool
    var idle: bool
    var tuple: Nic.Tuple
    var cookie: u32
    var w: Window
    var flags: Steering
    var pending: bytes
    var header: Nic.Pair
    ghost var inc: nat
    ghost var matched: Option<Nic.Pair>
    ghost var sent: nat

    ghost function View(): Nic.Conn
      reads this, session
    {
      Nic.Conn(live, idle, inc, tuple, cookie, w, flags.onload, flags.recvMigFin, flags.hwsInserted, flags.hwsApplied,
               flags.readyToDel, pending, header, session.View(), matched, sent)
    }

    /** Steering applied implies the whole handoff, and the session is valid. */
    ghost predicate Valid(p: Prims, cert: bytes)
      reads this, session
    {
      session.Valid(p, cert) && NicProofs.Flags(View())
    }

    /** A connection object of the free queue around a cleared session. */
    constructor (session: SslSession, ghost p: Prims, ghost cert: bytes)
      requires session.View() == Cleared(session.serverRecords)
      ensures this.session == session && !live && Valid(p, cert)
    {
      this.session := session;
      live, idle, inc, tuple, cookie, w := false, true, 0, Nic.NO_TUPLE, 0, Window(0, 0, 0, 0);
      flags := Steering(false, false, false, false, false);
      pending, header, matched, sent := [], Nic.Pair(0, 0), None, 0;
      new;
      HandshakeProofs.InitInv(session.serverRecords, p, cert);
    }

    /** remove_session: of the header only the first eight bytes are cleared, so server_ack_num survives. */
    method Remove(ghost p: Prims, ghost cert: bytes)
      modifies this, session
      ensures View() == Nic.Removed(old(View())) && Valid(p, cert) && !live
    {
      RemovedGood(View(), p, cert);
      ClearFields();
    }

    /** What remove_session assigns. */
    method ClearFields()
      modifies this, session
      ensures View() == Nic.Removed(old(View()))
    {
      session.Clear();
      live, idle, tuple, w, pending := false, true, Nic.NO_TUPLE, Window(0, 0, 0, 0), [];
      flags := Steering(false, false, false, false, false);
      header, matched, sent := Nic.Pair(0, header.ackNo), None, 0;
    }

    /** process_handshake_packet up to process_ssl_packet: the receive position moves only to a segment that
        repeats the last one or continues it, and not at all once the connection is onloaded. */
    method Arrived(ghost p: Prims, ghost cert: bytes, seqNo: u32, ackNo: u32, len: u16, packet: bytes)
      requires Valid(p, cert)
      modifies this`w, this`pending, this`idle
      ensures Valid(p, cert) && View() == Nic.Arrived(old(View()), seqNo, ackNo, len, packet)
      ensures flags.onload ==> w == old(w) && pending == packet
      ensures (w.recvSeq, w.recvAck, w.recvLen) != (old(w).recvSeq, old(w).recvAck, old(w).recvLen) ==>
                && w.recvSeq == seqNo && w.recvAck == ackNo && w.recvLen == len
                && (seqNo == old(w).sentAck || seqNo == Wrap32(old(w).recvSeq + old(w).recvLen))
    {
      if flags.onload {
        pending := packet;
        return;
      }
      match Validate(w, seqNo, ackNo, len)
      case SeqOk => w := Window(seqNo, ackNo, len, w.sentAck);
      case SeqOver => idle, w := false, w.(sentAck := EndOf(w));
      case SeqUnder =>
      case Weird =>
    }

    /** process_host_mig_fin: the handoff is confirmed exactly by a mig-fin that names the pair in the header. */
    method HostMigFin(ghost p: Prims, ghost cert: bytes, pair: Nic.Pair)
      requires Valid(p, cert) && live
      modifies this`flags, this`matched, this`header
      ensures Valid(p, cert) && View() == Nic.HostMigFin(old(View()), pair).c
      ensures flags.recvMigFin <==> old(flags.recvMigFin) || pair == old(header)
      ensures matched == if pair == old(header) then Some(pair) else old(matched)
    {
      if pair.seqNo == header.seqNo && pair.ackNo == header.ackNo {
        flags := flags.(recvMigFin := true);
        matched := Some(pair);
      } else {
        header := Nic.Pair(Wrap32(w.recvAck + |session.buffer|), Wrap32(w.recvSeq + w.recvLen));
      }
    }

    /** process_host_close: only a close that names the pair in the header marks the connection. */
    method HostClose(ghost p: Prims, ghost cert: bytes, pair: Nic.Pair)
      requires Valid(p, cert) && live
      modifies this`flags
      ensures Valid(p, cert) && View() == Nic.HostClose(old(View()), pair).c
      ensures flags.readyToDel <==> old(flags.readyToDel) || pair == header
    {
      if pair.seqNo == header.seqNo && pair.ackNo == header.ackNo {
        flags := flags.(readyToDel := true);
      }
    }

    /** apply_hws: steering is applied only to a session that released its flight and accepted the MAC over the
        six messages, after a mig-fin matched. */
    method ApplyHws(p: Prims, ghost cert: bytes)
      requires Sound(p) && Valid(p, cert)
      modifies this`flags
      ensures Valid(p, cert) && View() == Nic.ApplyHws(old(View())) && (flags.hwsApplied ==> HandedOver(View(), p))
      ensures var on := session.state.Active? && flags.recvMigFin;
              flags == old(flags).(hwsInserted := on || old(flags).hwsInserted,
                                   hwsApplied := on || old(flags).hwsApplied)
    {
      if session.state.Active? && flags.recvMigFin && !flags.hwsInserted {
        flags := flags.(hwsInserted := true, hwsApplied := true);
      }
      AppliedMeans(View(), p, cert);
    }

    /** remove_hws: a connection goes when it was steered and the host has closed it. */
    method RemoveHws(ghost p: Prims, ghost cert: bytes)
      requires Valid(p, cert)
      modifies this, session
      ensures Valid(p, cert) && View() == Nic.RemoveHws(old(View()))
      ensures if old(flags.hwsApplied && flags.readyToDel) then View() == Nic.Removed(old(View())) && !live
              else unchanged(this) && unchanged(session)
    {
      if flags.hwsApplied && flags.readyToDel {
        Remove(p, cert);
      }
    }

    /** forward_app_data: buffered data goes to the host, once, and only from a connection handed over. */
    method ForwardAppData(p: Prims, ghost cert: bytes) returns (toHost: Option<bytes>)
      requires Sound(p) && Valid(p, cert)
      modifies this`pending
      ensures var o := Nic.ForwardAppData(old(View())); Valid(p, cert) && View() == o.c && toHost == o.toHost
      ensures toHost.Some? ==> HandedOver(View(), p) && toHost.value == old(pending) != [] && pending == []
      ensures toHost.None? ==> pending == old(pending) && (flags.hwsApplied ==> pending == [])
    {
      toHost := None;
      if flags.hwsApplied && pending != [] {
        toHost := Some(pending);
        pending := [];
      }
      AppliedMeans(View(), p, cert);
    }

    /** send_key_meta: the pair it leaves in the header is the end of the held flight and of the client's
        second flight. */
    method SendKeyMeta()
      modifies this`header
      ensures header == EndPair(w, |session.buffer|) && View() == Nic.SendKeyMeta(old(View())).c
    {
      header := EndPair(w, |session.buffer|);
    }

    // ---------------------------------------------------------------- the session's routines

    /** One complete record of the client. The connection is onloaded exactly when its session is active, and
        that means the whole handshake is verified; the connection goes exactly with a record that aborts its
        session. */
    method Receive(p: Prims, ghost cert: bytes, r: Rec) returns (submit: Option<Opcode>, wire: Option<bytes>)
      requires Sound(p) && Valid(p, cert) && live && HandshakeProofs.Ordered(session.View(), r)
      modifies this, session
      ensures Valid(p, cert) && (flags.onload ==> ActiveMeans(session.View(), p))
      ensures View() == Nic.Step(old(View()), p, cert, Nic.Record(r)).c
      ensures !live <==> !old(session.crypto.waiting) && HandshakeProofs.Aborts(old(session.View()), p, r)
    {
      RecordPieces(View(), p, cert, r);
      var verdict, meta;
      verdict, submit, meta, wire := TakeRecord(p, r);
      React(verdict, meta, wire);
    }

    /** handle_application_data marks the parent of a session that is active. */
    method TakeRecord(p: Prims, r: Rec)
      returns (verdict: Verdict, submit: Option<Opcode>, meta: bool, wire: Option<bytes>)
      modifies this`flags, session
      ensures var o := Arrive(old(session.View()), p, r);
              && verdict == o.verdict && submit == o.submit && meta == o.meta && wire == o.wire
              && View() == Taken(old(View()), o)
    {
      verdict, submit, meta, wire := session.TakeRecord(p, r);
      if verdict != Abort && session.state.Active? {
        flags := flags.(onload := true);
      }
    }

    /** What the parent does with the outcome of a session routine. */
    method React(verdict: Verdict, meta: bool, wire: Option<bytes>)
      modifies this, session
      ensures View() == Reaction(old(View()), verdict, meta, wire)
    {
      if verdict == Abort {
        ClearFields();
      } else if meta {
        SendKeyMeta();
      } else if wire.Some? {
        SendTcpPacket(|wire.value|);
      }
    }

    /** The queue of the session. */
    method ReadQueue(p: Prims, ghost cert: bytes) returns (submit: Option<Opcode>, metas: nat, flights: nat)
      requires Valid(p, cert) && live
      modifies this, session
      ensures Valid(p, cert)
      ensures live ==> QueueRead(old(View()), View(), submit, metas, flights)
    {
      ghost var c := View();
      var verdict;
      verdict, submit, metas, flights := DrainSession(p, cert);
      if verdict == Abort {
        RemovedGood(View(), p, cert);
      } else {
        QueueGood(c, p, cert, session.View(), submit, metas, flights);
      }
      React(verdict, metas > 0, if flights > 0 then Some(session.serverRecords) else None);
    }

    method DrainSession(p: Prims, ghost cert: bytes)
      returns (verdict: Verdict, submit: Option<Opcode>, metas: nat, flights: nat)
      requires Valid(p, cert)
      modifies session
      ensures verdict != Exit && View() == old(View()).(hs := session.View())
      ensures verdict == Continue ==>
                && session.Valid(p, cert) && Drains(old(session.View()), session.View(), submit)
                && Counted(old(session.recvQ), |session.recvQ|, session.step, metas, flights)
    {
      verdict, submit, metas, flights := session.ProcessSessionRead(p, cert);
    }

    /** The answer of the hardware. */
    method Resume(p: Prims, ghost cert: bytes, random: b32) returns (ok: bool, submit: Option<Opcode>)
      requires Valid(p, cert) && live
      modifies session
      ensures ok <==> !Session.Overflows(old(session.View()), cert, Session.Resumption(random))
      ensures ok ==> Valid(p, cert) && KeysMean(session.View(), p)
      ensures ok ==> View() == Nic.Step(old(View()), p, cert, Nic.Resume(random)).c
      ensures ok && old(session.crypto.completed) ==> session.crypto.pendingOp == submit && !session.crypto.completed
    {
      ResumePieces(View(), p, cert, random);
      ok, submit := ResumeSession(p, random);
    }

    method ResumeSession(p: Prims, random: b32) returns (ok: bool, submit: Option<Opcode>)
      modifies session
      ensures var o := GetProcessed(old(session.View()), p, random);
              (ok <==> o.verdict == Continue) && (ok ==> View() == old(View()).(hs := o.h) && submit == o.submit)
    {
      ok, submit := session.TakeAnswer(p, random);
    }

    /** The rest of the server's flight: it leaves the NIC only after a mig-fin matched, and a key meta names its
        end. */
    method Flush(p: Prims, cert: bytes) returns (ok: bool, submit: Option<Opcode>, meta: bool, wire: Option<bytes>)
      requires Sound(p) && Valid(p, cert) && live
      modifies this, session
      ensures ok <==> !Session.Overflows(old(session.View()), cert, Session.Flush(old(flags.recvMigFin)))
      ensures ok ==> Valid(p, cert) && FlushDone(old(View()), View(), p, meta, wire)
      ensures ok ==> View() == Nic.Step(old(View()), p, cert, Nic.Remain).c
    {
      FlushPieces(View(), p, cert);
      ok, submit, meta, wire := FlushSession(p, cert);
      if ok {
        React(Continue, meta, wire);
      }
    }

    method FlushSession(p: Prims, cert: bytes)
      returns (ok: bool, submit: Option<Opcode>, meta: bool, wire: Option<bytes>)
      modifies session
      ensures var o := SendRemain(old(session.View()), p, cert, flags.recvMigFin);
              && (ok <==> o.verdict == Continue)
              && (ok ==> View() == old(View()).(hs := o.h) && submit == o.submit && meta == o.meta && wire == o.wire)
    {
      ok, submit, meta, wire := session.Flush(p, cert, flags.recvMigFin);
    }

    /** send_tcp_packet, as far as the connection remembers it. */
    method SendTcpPacket(len: nat)
      modifies this`w, this`sent, this`idle
      ensures View() == Nic.Acked(old(View())).(sent := if len > old(sent) then len else old(sent))
    {
      idle, w := false, w.(sentAck := EndOf(w));
      sent := if len > sent then len else sent;
    }

    /** apply_hws, remove_hws and forward_app_data, as the sweep calls them. */
    method Steer(p: Prims, ghost cert: bytes) returns (toHost: Option<bytes>)
      requires Sound(p) && Valid(p, cert) && live
      modifies this, session
      ensures Valid(p, cert)
      ensures toHost.Some? ==> live && HandedOver(View(), p) && toHost.value == old(pending)
    {
      ApplyHws(p, cert);
      RemoveHws(p, cert);
      toHost := None;
      if live {
        toHost := ForwardAppData(p, cert);
      }
    }

    /** The body of the sweep for one connection, in the order of the main loop; after a removal the calls that
        follow find a cleared session and do nothing. Whatever the sequence of sweeps and arrivals, data reaches
        the host only from a connection that is handed over, and a flight reaches the client only after a
        matched mig-fin. */
    method Sweep(p: Prims, cert: bytes, random: b32) returns (ok: bool, toHost: Option<bytes>, wire: Option<bytes>)
      requires Sound(p) && Valid(p, cert) && live
      modifies this, session
      ensures ok ==> Valid(p, cert)
      ensures ok && toHost.Some? ==> HandedOver(View(), p)
      ensures ok && wire.Some? ==> Delivered(View(), wire.value)
    {
      ok, toHost, wire := true, None, None;
      var submit, metas, flights := ReadQueue(p, cert);
      if !live {
        return;
      }
      ok, submit := Resume(p, cert, random);
      if !ok {
        return;
      }
      ok, toHost, wire := SteerAndFlush(p, cert);
    }

    method SteerAndFlush(p: Prims, cert: bytes) returns (ok: bool, toHost: Option<bytes>, wire: Option<bytes>)
      requires Sound(p) && Valid(p, cert) && live
      modifies this, session
      ensures ok ==> Valid(p, cert)
      ensures ok && toHost.Some? ==> HandedOver(View(), p)
      ensures ok && wire.Some? ==> Delivered(View(), wire.value)
    {
      ok, wire := true, None;
      toHost := Steer(p, cert);
      if live {
        var submit, meta;
        ok, submit, meta, wire := Flush(p, cert);
        if ok {
          AppliedMeans(View(), p, cert);
        }
      }
    }
  }

  lemma RemovedGood(c: Nic.Conn, p: Prims, cert: bytes)
    ensures NicProofs.Flags(Nic.Removed(c)) && HandshakeProofs.Inv(Nic.Removed(c).hs, p, cert)
  {
    NicProofs.RemovedFlags(c);
    HandshakeProofs.InitInv(c.hs.serverRecords, p, cert);
  }

  /** The connection once its session has taken a record: the parent is marked when the session is active. */
  function Taken(c: Nic.Conn, o: Out): Nic.Conn
  {
    if o.verdict == Abort then c.(hs := o.h) else c.(hs := o.h, onload := c.onload || o.h.state.Active?)
  }

  function Reaction(c: Nic.Conn, verdict: Verdict, meta: bool, wire: Option<bytes>): Nic.Conn
  {
    if verdict == Abort then Nic.Removed(c)
    else if meta then Nic.SendKeyMeta(c).c
    else if wire.Some? then Nic.Acked(c).(sent := if |wire.value| > c.sent then |wire.value| else c.sent)
    else c
  }

  /** A step keeps what an object's routines rely on. */
  lemma StepGood(c: Nic.Conn, p: Prims, cert: bytes, e: Nic.NicEvent)
    requires Sound(p) && c.live && NicProofs.Flags(c) && HandshakeProofs.Inv(c.hs, p, cert)
    requires Nic.Survives(c, p, cert, e)
    requires Nic.TlsEvent(c, e).Some? ==> Session.Enabled(c.hs, Nic.TlsEvent(c, e).value)
    ensures var c' := Nic.Step(c, p, cert, e).c; NicProofs.Flags(c') && HandshakeProofs.Inv(c'.hs, p, cert)
  {
    NicProofs.StepKeeps(c, p, cert, e);
    Migration.StepSound(c, p, cert, e);
  }

  lemma ReactionGood(c: Nic.Conn, p: Prims, cert: bytes, meta: bool, wire: Option<bytes>)
    requires c.live && NicProofs.Flags(c) && HandshakeProofs.Inv(c.hs, p, cert)
    ensures var c' := Reaction(c, Continue, meta, wire);
            c'.live && NicProofs.Flags(c') && HandshakeProofs.Inv(c'.hs, p, cert)
  {}

  /** The connection once its queue was read: the session only took records and perhaps started a request, and
      repetitions made the parent send the key meta or the flight. */
  ghost predicate QueueRead(c: Nic.Conn, c': Nic.Conn, submit: Option<Opcode>, metas: nat, flights: nat)
  {
    && Drains(c.hs, c'.hs, submit) && Counted(c.hs.recvQ, |c'.hs.recvQ|, c'.hs.step, metas, flights)
    && c' == Reaction(c.(hs := c'.hs), Continue, metas > 0, if flights > 0 then Some(c'.hs.serverRecords) else None)
  }

  lemma QueueGood(c: Nic.Conn, p: Prims, cert: bytes, h: Hs, submit: Option<Opcode>, metas: nat, flights: nat)
    requires c.live && NicProofs.Flags(c) && Drains(c.hs, h, submit) && HandshakeProofs.Inv(h, p, cert)
    requires Counted(c.hs.recvQ, |h.recvQ|, h.step, metas, flights)
    ensures var c' := Reaction(c.(hs := h), Continue, metas > 0, if flights > 0 then Some(h.serverRecords) else None);
            && c'.live && NicProofs.Flags(c') && HandshakeProofs.Inv(c'.hs, p, cert)
            && QueueRead(c, c', submit, metas, flights)
  {
    Settles(h, p, cert);
    assert h.state == Requested(c.hs, h).state == c.hs.state;
    assert h.released == Requested(c.hs, h).released == c.hs.released;
    ReactionGood(c.(hs := h), p, cert, metas > 0, if flights > 0 then Some(h.serverRecords) else None);
  }

  /** Taking and reacting is the step of the connection. */
  lemma RecordPieces(c: Nic.Conn, p: Prims, cert: bytes, r: Rec)
    requires Sound(p) && c.live && NicProofs.Flags(c) && HandshakeProofs.Inv(c.hs, p, cert)
    requires HandshakeProofs.Ordered(c.hs, r)
    ensures var o := Arrive(c.hs, p, r); var c' := Nic.Step(c, p, cert, Nic.Record(r)).c;
            && c' == Reaction(Taken(c, o), o.verdict, o.meta, o.wire)
            && (!c'.live <==> !c.hs.waiting && HandshakeProofs.Aborts(c.hs, p, r))
            && NicProofs.Flags(c') && HandshakeProofs.Inv(c'.hs, p, cert)
            && (c'.onload ==> ActiveMeans(c'.hs, p))
  {
    var c' := Nic.Step(c, p, cert, Nic.Record(r)).c;
    RecordReaction(c, p, cert, r);
    RecordAborts(c.hs, p, cert, r);
    StepGood(c, p, cert, Nic.Record(r));
    if c'.onload {
      ActiveMeansWhat(c'.hs, p, cert);
    }
  }

  lemma RecordAborts(h: Hs, p: Prims, cert: bytes, r: Rec)
    requires Sound(p) && HandshakeProofs.Inv(h, p, cert) && HandshakeProofs.Ordered(h, r)
    ensures Arrive(h, p, r).verdict == Abort <==> !h.waiting && HandshakeProofs.Aborts(h, p, r)
  {
    if h.waiting {
      assert Arrive(h, p, r) == Quiet(h.(recvQ := h.recvQ + [r]));
    } else {
      HandshakeProofs.AbortIff(h, p, cert, r);
    }
  }

  lemma RecordReaction(c: Nic.Conn, p: Prims, cert: bytes, r: Rec)
    requires c.live && NicProofs.Flags(c) && HandshakeProofs.Inv(c.hs, p, cert) && HandshakeProofs.Ordered(c.hs, r)
    ensures var o := Arrive(c.hs, p, r); var c' := Nic.Step(c, p, cert, Nic.Record(r)).c;
            c' == Reaction(Taken(c, o), o.verdict, o.meta, o.wire) && c'.live == (o.verdict != Abort)
    ensures Nic.Survives(c, p, cert, Nic.Record(r))
  {
    Session.PacketKeeps(c.hs, p, cert, r);
    WireKept(c.hs, p, cert, r);
    assert Nic.TlsEvent(c, Nic.Record(r)) == Some(Session.Packet(r));
    OutcomePieces(c, Arrive(c.hs, p, r));
  }

  lemma OutcomePieces(c: Nic.Conn, o: Out)
    requires c.live && !c.idle && o.verdict != Exit && (o.wire.Some? ==> |o.wire.value| <= SERVER_RECORDS)
    ensures var c' := Nic.AfterTls(c, o).c;
            c' == Reaction(Taken(c, o), o.verdict, o.meta, o.wire) && c'.live == (o.verdict != Abort)
  {
    if o.wire.Some? {
      assert Nic.Truncated(o.wire.value) == o.wire.value;
    }
  }

  /** The same for the answer of the hardware and for the flush of the flight. */
  lemma ResumePieces(c: Nic.Conn, p: Prims, cert: bytes, random: b32)
    requires c.live && NicProofs.Flags(c) && HandshakeProofs.Inv(c.hs, p, cert)
    ensures var o := GetProcessed(c.hs, p, random);
            && (o.verdict == Continue <==> !Session.Overflows(c.hs, cert, Session.Resumption(random)))
            && (o.verdict == Continue ==>
                  && Nic.Step(c, p, cert, Nic.Resume(random)).c == c.(hs := o.h)
                  && HandshakeProofs.Inv(o.h, p, cert) && NicProofs.Flags(c.(hs := o.h)) && KeysMean(o.h, p)
                  && (c.hs.completed ==> o.h.pendingOp == o.submit && !o.h.completed))
  {
    var o := GetProcessed(c.hs, p, random);
    ResumedMeans(c.hs, p, cert, random);
    Session.ResumptionKeeps(c.hs, p, cert, random);
    if o.verdict == Continue {
      Settles(o.h, p, cert);
      assert Nic.TlsEvent(c, Nic.Resume(random)) == Some(Session.Resumption(random));
      OutcomePieces(c, o);
    }
  }

  /** What a flush means to the connection it leaves. */
  ghost predicate FlushDone(c: Nic.Conn, c': Nic.Conn, p: Prims, meta: bool, wire: Option<bytes>)
  {
    && c'.live && Flagged(c') == Flagged(c)
    && (wire.Some? ==> Delivered(c', wire.value))
    && (meta ==> SecretsMean(c'.hs, p) && c'.header == EndPair(c'.w, |c'.hs.buffer|))
  }

  function Flagged(c: Nic.Conn): Steering
  {
    Steering(c.onload, c.recvMigFin, c.hwsInserted, c.hwsApplied, c.readyToDel)
  }

  lemma FlushPieces(c: Nic.Conn, p: Prims, cert: bytes)
    requires Sound(p) && c.live && NicProofs.Flags(c) && HandshakeProofs.Inv(c.hs, p, cert)
    ensures var o := SendRemain(c.hs, p, cert, c.recvMigFin);
            && (o.verdict == Continue <==> !Session.Overflows(c.hs, cert, Session.Flush(c.recvMigFin)))
            && (o.verdict == Continue ==>
                  var c' := Nic.Step(c, p, cert, Nic.Remain).c;
                  && c' == Reaction(c.(hs := o.h), Continue, o.meta, o.wire)
                  && NicProofs.Flags(c') && HandshakeProofs.Inv(c'.hs, p, cert) && FlushDone(c, c', p, o.meta, o.wire))
  {
    var o := SendRemain(c.hs, p, cert, c.recvMigFin);
    FlushedMeans(c.hs, p, cert, c.recvMigFin);
    if o.verdict == Continue {
      assert Nic.TlsEvent(c, Nic.Remain) == Some(Session.Flush(c.recvMigFin));
      StepGood(c, p, cert, Nic.Remain);
      FlushReaction(c, p, o);
    }
  }

  lemma FlushReaction(c: Nic.Conn, p: Prims, o: Out)
    requires c.live && !c.idle && o.verdict == Continue && (o.h.state.Active? ==> c.onload)
    requires o.wire.Some? ==>
               && c.matched.Some? && c.recvMigFin && o.h.released && !o.meta
               && o.wire.value == Flatten(o.h.records) == o.h.serverRecords && |o.wire.value| <= SERVER_RECORDS
    requires o.meta ==> SecretsMean(o.h, p)
    ensures var c' := Nic.AfterTls(c, o).c;
            c' == Reaction(c.(hs := o.h), Continue, o.meta, o.wire) && FlushDone(c, c', p, o.meta, o.wire)
  {
    OutcomePieces(c, o);
    assert Taken(c, o) == c.(hs := o.h);
  }

  /** What a record makes the session send again fits server_records. */
  lemma WireKept(h: Hs, p: Prims, cert: bytes, r: Rec)
    requires HandshakeProofs.Inv(h, p, cert)
    ensures var o := Arrive(h, p, r); o.wire.Some? ==> |o.wire.value| <= SERVER_RECORDS
  {
    var o := Arrive(h, p, r);
    if o.wire.Some? {
      assert h.step == FINISHED && o.wire == Some(h.serverRecords);
    }
  }

  /** The flight went out, whole, after a mig-fin matched, and is kept for retransmission. */
  ghost predicate Delivered(c: Nic.Conn, flight: bytes)
  {
    c.matched.Some? && c.recvMigFin && c.hs.released && flight == Flatten(c.hs.records) == c.hs.serverRecords
  }

  /** What the sweep calls do to a removed connection. */
  lemma RemovedIsInert(c: Nic.Conn, p: Prims, cert: bytes, e: Nic.NicEvent)
    requires e.Queue? || e.Resume? || e.Apply? || e.Remove? || e.Forward? || e.Remain?
    ensures Nic.Step(Nic.Removed(c), p, cert, e) == Nic.Silent(Nic.Removed(c))
  {
    var gone := Nic.Removed(c);
    match e
    case Queue => assert ReadQueue(gone.hs, p) == Quiet(gone.hs);
    case Resume(random) => assert GetProcessed(gone.hs, p, random) == Quiet(gone.hs);
    case Remain => assert SendRemain(gone.hs, p, cert, false) == Quiet(gone.hs);
    case _ =>
  }

  /** The whole handoff: a matched mig-fin, the released flight, and the MAC over the six messages. */
  ghost predicate HandedOver(c: Nic.Conn, p: Prims)
  {
    c.hwsApplied && c.hwsInserted && c.recvMigFin && c.matched.Some? && c.onload && ActiveMeans(c.hs, p)
  }

  lemma AppliedMeans(c: Nic.Conn, p: Prims, cert: bytes)
    requires Sound(p) && NicProofs.Flags(c) && HandshakeProofs.Inv(c.hs, p, cert)
    ensures c.hwsApplied ==> HandedOver(c, p)
  {
    if c.hwsApplied {
      ActiveMeansWhat(c.hs, p, cert);
    }
  }

  lemma Settles(h: Hs, p: Prims, cert: bytes)
    requires HandshakeProofs.Inv(h, p, cert)
    ensures NicProofs.Settled(h)
  {}
}
