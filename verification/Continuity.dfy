/** TCP continuity across the handoff, for clients that acknowledge only what was sent and keep to the
    record order of Appendix D.4 of RFC 8446. */
module Continuity {
  import opened Bytes
  import opened Tls
  import opened Handshake
  import HandshakeProofs
  import Session
  import opened SeqNum
  import opened Segments
  import opened Nic
  import opened NicProofs
  import Migration
  import FreeSlots

  /** The client keeps to the rules, and the process goes on. */
  predicate Honest(c: Conn, p: Prims, cert: bytes, e: NicEvent)
  {
    && Survives(c, p, cert, e)
    && (e.Segment? ==> Wrap32(e.ackNo - (c.cookie + 1)) <= c.sent)
    && (TlsEvent(c, e).Some? ==> Session.Enabled(c.hs, TlsEvent(c, e).value))
  }

  /** Until the flight is released nothing has been sent, so every acknowledgement is of the SYN. */
  ghost predicate Aligned(c: Conn)
  {
    !c.hs.released ==> c.sent == 0 && c.w.recvAck == Wrap32(c.cookie + 1)
  }

  /** What the session invariant says of a held flight. */
  ghost predicate Holding(h: Hs, cert: bytes)
  {
    && (h.step == FINISHED ==> h.released)
    && (h.step == CERTIFICATE_VERIFY ==> !h.released)
    && (h.step == CERTIFICATE_VERIFY ==> |h.buffer| == |cert| + |h.signature| + Session.FlightOverhead(h.pendingGcm))
  }

  ghost predicate Good(c: Conn, p: Prims, cert: bytes)
  {
    Flags(c) && HandshakeProofs.Inv(c.hs, p, cert) && Aligned(c)
  }

  lemma HoldingFromInv(h: Hs, p: Prims, cert: bytes)
    requires Sound(p) && HandshakeProofs.Inv(h, p, cert)
    ensures Holding(h, cert)
  {
    if h.step == CERTIFICATE_VERIFY {
      Session.FlightLength(h, p, cert);
    }
  }

  /** A connection just entered by insert_tcp_connection. */
  ghost predicate Newborn(c: Conn)
  {
    c == Opened(Removed(c), c.inc, c.tuple, c.cookie, Wrap32(c.w.recvSeq - 1), c.w.recvLen)
  }

  lemma NewbornGood(c: Conn, p: Prims, cert: bytes)
    requires Newborn(c)
    ensures Good(c, p, cert)
  {
    RemovedFlags(c);
    HandshakeProofs.InitInv(c.hs.serverRecords, p, cert);
    OpenedFlags(Removed(c), c.inc, c.tuple, c.cookie, Wrap32(c.w.recvSeq - 1), c.w.recvLen);
  }

  lemma OpenedIsNewborn(c: Conn, inc: nat, tuple: Tuple, cookie: u32, seqNo: u32, len: u16)
    ensures Newborn(Opened(Removed(c), inc, tuple, cookie, seqNo, len))
  {
    WrapAdd(seqNo + 1, -1);
  }

  // ---------------------------------------------------------------- one event

  lemma AckOfSyn(cookie: u32, ackNo: u32)
    requires Wrap32(ackNo - (cookie + 1)) == 0
    ensures ackNo == Wrap32(cookie + 1)
  {}

  lemma AlignedStep(c: Conn, p: Prims, cert: bytes, e: NicEvent, o: NicOut)
    requires Aligned(c) && Holding(c.hs, cert) && Honest(c, p, cert, e) && ConnStep(c, e, o) && o.c.live
    ensures Aligned(o.c)
  {
    if !o.c.hs.released && e.Segment? && o.c.w.recvAck == e.ackNo && c.sent == 0 {
      AckOfSyn(c.cookie, e.ackNo);
    }
  }

  lemma StepInv(c: Conn, p: Prims, cert: bytes, e: NicEvent)
    requires Sound(p) && HandshakeProofs.Inv(c.hs, p, cert) && Honest(c, p, cert, e)
    requires Step(c, p, cert, e).c.live && ConnStep(c, e, Step(c, p, cert, e))
    ensures HandshakeProofs.Inv(Step(c, p, cert, e).c.hs, p, cert)
  {
    var t := TlsEvent(c, e);
    if t.Some? {
      Session.EventKeeps(c.hs, p, cert, t.value);
      Migration.AfterTlsSession(c, Session.Apply(c.hs, p, cert, t.value));
    }
  }

  /** A release sends the held flight, from the last acknowledgement on; it fits server_records. */
  ghost predicate ReleaseOk(c: Conn, e: NicEvent, o: NicOut)
  {
    e.Remain? && o.c.hs.released && !c.hs.released ==>
      && c.hs.step == CERTIFICATE_VERIFY && o.wire == Cut(c.w.recvAck, Truncated(c.hs.buffer))
      && |c.hs.buffer| <= SERVER_RECORDS
  }

  lemma RemainOk(c: Conn, o: Out)
    requires o.verdict == Continue && (o.h.released != c.hs.released ==> o.wire.Some?)
    requires o.wire.Some? ==> c.hs.step == CERTIFICATE_VERIFY && |c.hs.buffer| <= SERVER_RECORDS
                              && o == Out(Release(c.hs), None, false, Some(c.hs.buffer), Continue)
    ensures ReleaseOk(c, Remain, AfterTls(c, o))
  {
    if o.wire.None? {
      assert AfterTls(c, o).c.hs == o.h;
    }
  }

  lemma RemainIsRelease(c: Conn, p: Prims, cert: bytes)
    requires Sound(p) && HandshakeProofs.Inv(c.hs, p, cert) && Survives(c, p, cert, Remain)
    ensures ReleaseOk(c, Remain, AfterTls(c, SendRemain(c.hs, p, cert, c.recvMigFin)))
  {
    Session.FlushKeeps(c.hs, p, cert, c.recvMigFin);
    RemainOk(c, SendRemain(c.hs, p, cert, c.recvMigFin));
  }

  lemma ReleaseHolds(c: Conn, p: Prims, cert: bytes, e: NicEvent)
    requires Sound(p) && HandshakeProofs.Inv(c.hs, p, cert) && Survives(c, p, cert, e)
    ensures ReleaseOk(c, e, Step(c, p, cert, e))
  {
    if e.Remain? {
      RemainIsRelease(c, p, cert);
    }
  }

  /** Everything the whole-life argument needs of one event. */
  ghost predicate Facts(c: Conn, cert: bytes, e: NicEvent, o: NicOut)
  {
    && ConnStep(c, e, o) && ReleaseOk(c, e, o) && Aligned(c) && Holding(c.hs, cert)
    && Aligned(o.c) && Holding(o.c.hs, cert)
  }

  lemma StepFacts(c: Conn, p: Prims, cert: bytes, e: NicEvent)
    requires Sound(p) && c.live && Good(c, p, cert) && Honest(c, p, cert, e) && Step(c, p, cert, e).c.live
    ensures Facts(c, cert, e, Step(c, p, cert, e)) && Good(Step(c, p, cert, e).c, p, cert)
  {
    StepKeeps(c, p, cert, e);
    StepInv(c, p, cert, e);
    HoldingFromInv(c.hs, p, cert);
    HoldingFromInv(Step(c, p, cert, e).c.hs, p, cert);
    AlignedStep(c, p, cert, e, Step(c, p, cert, e));
    ReleaseHolds(c, p, cert, e);
  }

  // ---------------------------------------------------------------- whole connections

  /** A connection's life from its SYN on, with what it emits at each event. */
  ghost predicate Life(cs: seq<Conn>, es: seq<NicEvent>, os: seq<NicOut>, p: Prims, cert: bytes)
  {
    && |cs| == |es| + 1 && |os| == |es|
    && Newborn(cs[0])
    && (forall i :: 0 <= i < |cs| ==> cs[i].live)
    && (forall i :: 0 <= i < |es| ==>
          Honest(cs[i], p, cert, es[i]) && os[i] == Step(cs[i], p, cert, es[i]) && cs[i + 1] == os[i].c)
  }

  lemma NextGood(c: Conn, p: Prims, cert: bytes, e: NicEvent, o: NicOut)
    requires Sound(p) && c.live && Good(c, p, cert) && Honest(c, p, cert, e) && o == Step(c, p, cert, e) && o.c.live
    ensures Good(o.c, p, cert)
  {
    StepFacts(c, p, cert, e);
  }

  lemma {:induction false} LifeGood(cs: seq<Conn>, es: seq<NicEvent>, os: seq<NicOut>, p: Prims, cert: bytes, i: nat)
    requires Sound(p) && Life(cs, es, os, p, cert) && i < |cs|
    ensures Good(cs[i], p, cert)
    decreases i
  {
    if i == 0 {
      NewbornGood(cs[0], p, cert);
    } else {
      var k: nat := i - 1;
      LifeGood(cs, es, os, p, cert, k);
      assert cs[k + 1].live;
      NextGood(cs[k], p, cert, es[k], os[k]);
    }
  }

  /** The same life, seen only through the facts. */
  ghost predicate Traced(cs: seq<Conn>, es: seq<NicEvent>, os: seq<NicOut>, cert: bytes)
  {
    && |cs| == |es| + 1 && |os| == |es|
    && (forall i :: 0 <= i < |cs| ==> cs[i].live)
    && (forall i :: 0 <= i < |es| ==> Facts(cs[i], cert, es[i], os[i]) && cs[i + 1] == os[i].c)
  }

  lemma LifeTraced(cs: seq<Conn>, es: seq<NicEvent>, os: seq<NicOut>, p: Prims, cert: bytes)
    requires Sound(p) && Life(cs, es, os, p, cert)
    ensures Traced(cs, es, os, cert)
  {
    forall i | 0 <= i < |es|
      ensures Facts(cs[i], cert, es[i], os[i]) && cs[i + 1] == os[i].c
    {
      LifeGood(cs, es, os, p, cert, i);
      assert cs[i + 1].live;
      StepFacts(cs[i], p, cert, es[i]);
    }
  }

  lemma {:induction false} SameCookie(cs: seq<Conn>, es: seq<NicEvent>, os: seq<NicOut>, cert: bytes, i: nat)
    requires Traced(cs, es, os, cert) && i < |cs|
    ensures cs[i].cookie == cs[0].cookie
    decreases i
  {
    if i > 0 {
      SameCookie(cs, es, os, cert, i - 1);
      assert Facts(cs[i - 1], cert, es[i - 1], os[i - 1]);
    }
  }

  /** From one holding state to a later one the held flight is the same. */
  lemma {:induction false} FlightHeld(cs: seq<Conn>, es: seq<NicEvent>, os: seq<NicOut>, cert: bytes, i: nat, j: nat)
    requires Traced(cs, es, os, cert) && i <= j < |cs|
    requires cs[i].hs.step == CERTIFICATE_VERIFY
    ensures cs[j].hs.step >= CERTIFICATE_VERIFY
    ensures cs[j].hs.step == CERTIFICATE_VERIFY ==> cs[j].hs.buffer == cs[i].hs.buffer
    decreases j
  {
    if i < j {
      FlightHeld(cs, es, os, cert, i, j - 1);
      assert Facts(cs[j - 1], cert, es[j - 1], os[j - 1]);
    }
  }

  lemma MetaNamesEnd(cs: seq<Conn>, es: seq<NicEvent>, os: seq<NicOut>, cert: bytes, i: nat)
    requires Traced(cs, es, os, cert) && i < |es| && os[i].meta.Some?
    ensures var c := cs[i + 1];
            && c.hs.step == CERTIFICATE_VERIFY
            && os[i].meta.value.pair.seqNo == Wrap32(cs[0].cookie + 1 + |c.hs.buffer|)
            && os[i].meta.value.pair.ackNo == Wrap32(c.w.recvSeq + c.w.recvLen + 80)
            && |c.hs.buffer| == |cert| + |c.hs.signature| + Session.FlightOverhead(c.hs.pendingGcm)
  {
    assert Facts(cs[i], cert, es[i], os[i]);
    SameCookie(cs, es, os, cert, i + 1);
    WrapAdd(cs[0].cookie + 1, |cs[i + 1].hs.buffer|);
  }

  /** Every key meta names cookie + 1 + |flight| as the server's next sequence number, the flight is 294 bytes
      (230 without encryption) longer than certificate and signature, and the acknowledgement lies 80 bytes, the
      length of the client's second flight, behind the last segment received. */
  lemma KeyMetaNamesEnd(cs: seq<Conn>, es: seq<NicEvent>, os: seq<NicOut>, p: Prims, cert: bytes, i: nat)
    requires Sound(p) && Life(cs, es, os, p, cert) && i < |es|
    ensures os[i].meta.Some? ==>
              var c := cs[i + 1];
              && os[i].meta.value.pair.seqNo == Wrap32(cs[0].cookie + 1 + |c.hs.buffer|)
              && os[i].meta.value.pair.ackNo == Wrap32(c.w.recvSeq + c.w.recvLen + 80)
              && |c.hs.buffer| == |cert| + |c.hs.signature| + Session.FlightOverhead(c.hs.pendingGcm)
  {
    LifeTraced(cs, es, os, p, cert);
    if os[i].meta.Some? {
      MetaNamesEnd(cs, es, os, cert, i);
    }
  }

  /** The segments start at `start`, follow one another without gap or overlap, carry exactly the flight
      and end at `end`. */
  ghost predicate Delivers(wire: seq<Segment>, start: u32, flight: bytes, end: u32)
  {
    && wire != [] && wire[0].seqNo == start && Contiguous(wire) && Payloads(wire) == flight
    && End(wire[|wire| - 1]) == end
  }

  /** A flight whose length fits the `uint16_t` of send_tcp_packet is delivered whole. */
  lemma CutDelivers(start: u32, flight: bytes)
    requires |flight| < 0x1_0000
    ensures Delivers(Cut(start, Truncated(flight)), start, flight, Wrap32(start + |flight|))
  {
    assert Truncated(flight) == flight;
    CutIsContiguous(start, flight);
    CutIsExact(start, flight);
  }

  lemma TracedContinuity(cs: seq<Conn>, es: seq<NicEvent>, os: seq<NicOut>, cert: bytes, i: nat, j: nat)
    requires Traced(cs, es, os, cert) && i < j < |es| && os[i].meta.Some?
    requires es[j].Remain? && cs[j + 1].hs.released && !cs[j].hs.released
    ensures |cs[j].hs.buffer| <= SERVER_RECORDS
    ensures Delivers(os[j].wire, Wrap32(cs[0].cookie + 1), cs[j].hs.buffer, os[i].meta.value.pair.seqNo)
  {
    MetaNamesEnd(cs, es, os, cert, i);
    FlightHeld(cs, es, os, cert, i + 1, j);
    SameCookie(cs, es, os, cert, j);
    assert Facts(cs[j], cert, es[j], os[j]);
    CutDelivers(Wrap32(cs[0].cookie + 1), cs[j].hs.buffer);
    WrapAdd(cs[0].cookie + 1, |cs[j].hs.buffer|);
  }

  /** A flight that is released has at most 1024 bytes, so no length is cut; the segments that carry it start
      at cookie + 1, follow one another, carry exactly the flight and end where every key meta sent before
      said the server would stand. */
  lemma HandoffContinuity(cs: seq<Conn>, es: seq<NicEvent>, os: seq<NicOut>, p: Prims, cert: bytes, i: nat, j: nat)
    requires Sound(p) && Life(cs, es, os, p, cert) && i < j < |es|
    ensures os[i].meta.Some? && es[j].Remain? && cs[j + 1].hs.released && !cs[j].hs.released ==>
              && |cs[j].hs.buffer| <= SERVER_RECORDS
              && Delivers(os[j].wire, Wrap32(cs[0].cookie + 1), cs[j].hs.buffer, os[i].meta.value.pair.seqNo)
  {
    LifeTraced(cs, es, os, p, cert);
    if os[i].meta.Some? && es[j].Remain? && cs[j + 1].hs.released && !cs[j].hs.released {
      TracedContinuity(cs, es, os, cert, i, j);
    }
  }

  // ---------------------------------------------------------------- retransmission

  lemma KeptStep(c: Conn, p: Prims, cert: bytes, e: NicEvent)
    requires Sound(p) && c.live && Good(c, p, cert) && c.hs.released
    requires Honest(c, p, cert, e) && Step(c, p, cert, e).c.live
    ensures var h := Step(c, p, cert, e).c.hs; h.released && h.serverRecords == c.hs.serverRecords
  {
    StepKeeps(c, p, cert, e);
    var t := TlsEvent(c, e);
    if t.Some? {
      Session.ReleasedStays(c.hs, p, cert, t.value);
      Migration.AfterTlsSession(c, Session.Apply(c.hs, p, cert, t.value));
      LiveContinues(c, Session.Apply(c.hs, p, cert, t.value));
    }
  }

  lemma LiveContinues(c: Conn, o: Out)
    requires AfterTls(c, o).c.live
    ensures o.verdict != Abort
  {}

  lemma {:induction false} FlightKept(cs: seq<Conn>, es: seq<NicEvent>, os: seq<NicOut>, p: Prims, cert: bytes,
                                      i: nat, j: nat)
    requires Sound(p) && Life(cs, es, os, p, cert) && i <= j < |cs| && cs[i].hs.released
    ensures cs[j].hs.released && cs[j].hs.serverRecords == cs[i].hs.serverRecords
    decreases j
  {
    if i < j {
      var k: nat := j - 1;
      FlightKept(cs, es, os, p, cert, i, k);
      LifeGood(cs, es, os, p, cert, k);
      assert cs[k].live && cs[k + 1].live && os[k] == Step(cs[k], p, cert, es[k]) && cs[k + 1] == os[k].c;
      KeptStep(cs[k], p, cert, es[k]);
    }
  }

  /** A session routine that sends the flight again, at its connection. */
  lemma ResendAfter(c: Conn, o: Out)
    requires o.verdict == Continue && !o.meta && o.wire.Some?
    ensures AfterTls(c, o).wire == Cut(c.w.recvAck, Truncated(o.wire.value))
  {}

  lemma ResendStep(c: Conn, p: Prims, cert: bytes, r: Rec)
    requires HandshakeProofs.Inv(c.hs, p, cert) && c.hs.step == FINISHED && (r.HelloRec? || r.HandshakeRec?)
    ensures Step(c, p, cert, Record(r)).wire == Cut(c.w.recvAck, Truncated(c.hs.serverRecords))
  {
    HandshakeProofs.RepeatedHello(c.hs, p, cert, r);
    assert TlsEvent(c, Record(r)) == Some(Session.Packet(r));
    ResendAfter(c, Arrive(c.hs, p, r));
  }

  /** Event `i` releases the flight and event `j` brings a repeated ClientHello, before the client's second flight. */
  ghost predicate Repeats(cs: seq<Conn>, es: seq<NicEvent>, i: nat, j: nat)
    requires i < j < |es| && |cs| == |es| + 1
  {
    && es[i].Remain? && cs[i + 1].hs.released && !cs[i].hs.released
    && es[j].Record? && (es[j].r.HelloRec? || es[j].r.HandshakeRec?) && cs[j].hs.step == FINISHED
  }

  lemma ResentIsFlight(cs: seq<Conn>, es: seq<NicEvent>, os: seq<NicOut>, p: Prims, cert: bytes, i: nat, j: nat)
    requires Sound(p) && Life(cs, es, os, p, cert) && i < j < |es| && Repeats(cs, es, i, j)
    ensures os[i].wire == Cut(Wrap32(cs[0].cookie + 1), Truncated(cs[i].hs.buffer))
    ensures os[j].wire == Cut(cs[j].w.recvAck, Truncated(cs[i].hs.buffer)) && |cs[i].hs.buffer| <= SERVER_RECORDS
  {
    ReleaseWire(cs, es, os, p, cert, i);
    ReleaseKeepsFlight(cs, es, os, p, cert, i);
    FlightKept(cs, es, os, p, cert, i + 1, j);
    ResentWire(cs, es, os, p, cert, j);
  }

  /** After the release a repeated ClientHello is answered with the whole flight, from the client's acknowledgement on;
      these are the very segments of the release exactly while the client has acknowledged no more than the SYN. */
  lemma FlightResent(cs: seq<Conn>, es: seq<NicEvent>, os: seq<NicOut>, p: Prims, cert: bytes, i: nat, j: nat)
    requires Sound(p) && Life(cs, es, os, p, cert) && i < j < |es| && Repeats(cs, es, i, j)
    ensures Resends(os[j].wire, cs[j].w.recvAck, cs[i].hs.buffer)
    ensures os[j].wire == os[i].wire <==> cs[j].w.recvAck == Wrap32(cs[0].cookie + 1)
  {
    ResentIsFlight(cs, es, os, p, cert, i, j);
    CutsAgree(Wrap32(cs[0].cookie + 1), os[i].wire, cs[j].w.recvAck, os[j].wire, cs[i].hs.buffer);
  }

  lemma CutsAgree(a: u32, first: seq<Segment>, b: u32, second: seq<Segment>, flight: bytes)
    requires |flight| <= SERVER_RECORDS && first == Cut(a, Truncated(flight)) && second == Cut(b, Truncated(flight))
    ensures Resends(second, b, flight) && (second == first <==> b == a)
  {
    CutDelivers(a, flight);
    CutDelivers(b, flight);
  }

  ghost predicate Resends(wire: seq<Segment>, start: u32, flight: bytes)
  {
    Delivers(wire, start, flight, Wrap32(start + |flight|))
  }

  lemma ReleaseWire(cs: seq<Conn>, es: seq<NicEvent>, os: seq<NicOut>, p: Prims, cert: bytes, i: nat)
    requires Sound(p) && Life(cs, es, os, p, cert) && i < |es|
    requires es[i].Remain? && cs[i + 1].hs.released && !cs[i].hs.released
    ensures |cs[i].hs.buffer| <= SERVER_RECORDS
    ensures os[i].wire == Cut(Wrap32(cs[0].cookie + 1), Truncated(cs[i].hs.buffer))
  {
    LifeTraced(cs, es, os, p, cert);
    TracedWire(cs, es, os, cert, i);
  }

  lemma TracedWire(cs: seq<Conn>, es: seq<NicEvent>, os: seq<NicOut>, cert: bytes, i: nat)
    requires Traced(cs, es, os, cert) && i < |es|
    requires es[i].Remain? && cs[i + 1].hs.released && !cs[i].hs.released
    ensures |cs[i].hs.buffer| <= SERVER_RECORDS
    ensures os[i].wire == Cut(Wrap32(cs[0].cookie + 1), Truncated(cs[i].hs.buffer))
  {
    assert Facts(cs[i], cert, es[i], os[i]);
    SameCookie(cs, es, os, cert, i);
  }

  lemma ResentWire(cs: seq<Conn>, es: seq<NicEvent>, os: seq<NicOut>, p: Prims, cert: bytes, j: nat)
    requires Sound(p) && Life(cs, es, os, p, cert) && j < |es|
    requires es[j].Record? && (es[j].r.HelloRec? || es[j].r.HandshakeRec?) && cs[j].hs.step == FINISHED
    ensures os[j].wire == Cut(cs[j].w.recvAck, Truncated(cs[j].hs.serverRecords))
  {
    LifeGood(cs, es, os, p, cert, j);
    assert os[j] == Step(cs[j], p, cert, es[j]);
    ResendStep(cs[j], p, cert, es[j].r);
  }

  lemma ReleaseKeepsFlight(cs: seq<Conn>, es: seq<NicEvent>, os: seq<NicOut>, p: Prims, cert: bytes, i: nat)
    requires Sound(p) && Life(cs, es, os, p, cert) && i < |es|
    requires es[i].Remain? && cs[i + 1].hs.released && !cs[i].hs.released
    ensures cs[i + 1].hs.serverRecords == cs[i].hs.buffer
  {
    var c := cs[i];
    LifeGood(cs, es, os, p, cert, i);
    assert Honest(c, p, cert, es[i]) && os[i] == Step(c, p, cert, es[i]) && cs[i + 1] == os[i].c && cs[i + 1].live;
    var o := SendRemain(c.hs, p, cert, c.recvMigFin);
    Session.FlushKeeps(c.hs, p, cert, c.recvMigFin);
    Migration.AfterTlsSession(c, o);
    LiveContinues(c, o);
  }

  // ---------------------------------------------------------------- lives within the whole system

  lemma LifeGrows(cs: seq<Conn>, es: seq<NicEvent>, os: seq<NicOut>, p: Prims, cert: bytes, e: NicEvent)
    requires Life(cs, es, os, p, cert) && Honest(cs[|es|], p, cert, e) && Step(cs[|es|], p, cert, e).c.live
    ensures var o := Step(cs[|es|], p, cert, e); Life(cs + [o.c], es + [e], os + [o], p, cert)
  {
    var o := Step(cs[|es|], p, cert, e);
    var cs', es', os' := cs + [o.c], es + [e], os + [o];
    assert cs'[0] == cs[0];
    forall i | 0 <= i < |es'|
      ensures Honest(cs'[i], p, cert, es'[i]) && os'[i] == Step(cs'[i], p, cert, es'[i]) && cs'[i + 1] == os'[i].c
    {
      if i < |es| {
        assert cs'[i] == cs[i] && cs'[i + 1] == cs[i + 1] && es'[i] == es[i] && os'[i] == os[i];
      }
    }
  }

  /** Whatever happens at the host and at other slots, from its SYN on a slot that stays live and whose client
      is honest has a life to which the theorems above apply, if only harmless records reached it while it was
      free since some state `from` in which it was live or cleared. */
  lemma {:induction false} LifeOfSlot(run: seq<Migration.Sys>, events: seq<Migration.SysEvent>, p: Prims, cert: bytes,
                                      from: nat, i: nat, j: nat, slot: nat)
    returns (cs: seq<Conn>, es: seq<NicEvent>, os: seq<NicOut>)
    requires Migration.Run(run, events, p, cert) && i < j < |run| && events[i].Syn? && events[i].slot == slot
    requires from <= i && FreeSlots.LiveOrClear(run[from], slot)
    requires forall k :: from <= k < i ==> FreeSlots.Tidy(run[k], events[k], slot)
    requires forall k :: i < k <= j ==> slot < |run[k].slots| && run[k].slots[slot].live
    requires forall k :: i < k < j && events[k].AtNic? && events[k].slot == slot ==>
               Honest(run[k].slots[slot], p, cert, events[k].e)
    ensures Life(cs, es, os, p, cert) && cs[|es|] == run[j].slots[slot]
    decreases j
  {
    if j == i + 1 {
      FreeSlots.FreeIsClear(run, events, p, cert, from, i, slot);
      var c := run[i].slots[slot];
      assert Migration.Steps(run[i], p, cert, events[i], run[i + 1]);
      var ev := events[i];
      OpenedIsNewborn(c, run[i].nextInc, ev.tuple, ev.cookie, ev.seqNo, ev.len);
      cs, es, os := [run[j].slots[slot]], [], [];
    } else {
      var k: nat := j - 1;
      cs, es, os := LifeOfSlot(run, events, p, cert, from, i, k, slot);
      assert Migration.Steps(run[k], p, cert, events[k], run[k + 1]);
      if events[k].AtNic? && events[k].slot == slot {
        var o := Step(run[k].slots[slot], p, cert, events[k].e);
        LifeGrows(cs, es, os, p, cert, events[k].e);
        cs, es, os := cs + [o.c], es + [events[k].e], os + [o];
      }
    }
  }

  /** The 80 bytes between the last segment and the acknowledgement in a key meta are a ChangeCipherSpec
      record and a sealed client Finished. */
  lemma ClientSecondFlight(p: Prims, key: bytes, nonce: bytes, version: b2, verifyData: bytes)
    requires Sound(p) && |verifyData| == 48
    ensures |PlainRecord(0x14, version, [1])| + |SealedRecord(p, key, nonce, version, FinishedMsg(verifyData))| == 80
  {}
}
