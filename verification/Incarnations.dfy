/** Two connections of one client, one after the other: runs of the whole system, from its start, that show
    where the handoff depends on the client. */
module Incarnations {
  import opened Bytes
  import opened Hkdf
  import opened Tls
  import opened Handshake
  import HandshakeProofs
  import Session
  import Completion
  import Der
  import opened SeqNum
  import opened Nic
  import opened NicProofs
  import opened Migration
  import FreeSlots

  // ---------------------------------------------------------------- reachable systems

  ghost predicate Reachable(s: Sys, p: Prims, cert: bytes)
  {
    exists run, events :: Run(run, events, p, cert) && run[|events|] == s
  }

  lemma StartReached(s: Sys, p: Prims, cert: bytes)
    requires Migration.Init(s)
    ensures Reachable(s, p, cert)
  {
    var run, events := [s], [];
    assert Run(run, events, p, cert) && run[|events|] == s;
  }

  lemma StepReached(s: Sys, p: Prims, cert: bytes, ev: SysEvent, s': Sys)
    requires Reachable(s, p, cert) && Steps(s, p, cert, ev, s')
    ensures Reachable(s', p, cert)
  {
    var run, events :| Run(run, events, p, cert) && run[|events|] == s;
    var run', events' := run + [s'], events + [ev];
    assert run'[0] == run[0];
    assert Run(run', events', p, cert) && run'[|events'|] == s';
  }

  lemma NextReached(s: Sys, p: Prims, cert: bytes, ev: SysEvent)
    requires Reachable(s, p, cert) && Enabled(s, p, cert, ev)
    ensures Reachable(Next(s, p, cert, ev), p, cert)
  {
    StepReached(s, p, cert, ev, Next(s, p, cert, ev));
  }

  /** One event at the only slot. */
  lemma SlotReached(s: Sys, p: Prims, cert: bytes, e: NicEvent, o: NicOut) returns (s': Sys)
    requires Reachable(s, p, cert) && |s.slots| == 1 && s.slots[0].live && !e.Close?
    requires Survives(s.slots[0], p, cert, e) && o == Step(s.slots[0], p, cert, e)
    requires e.MigFin? ==> Fin(s.slots[0].tuple, e.pair) in s.fins
    ensures Reachable(s', p, cert)
    ensures s' == s.(slots := [o.c], metas := if o.meta.Some? then s.metas + {o.meta.value} else s.metas)
  {
    s' := s.(slots := [o.c], metas := if o.meta.Some? then s.metas + {o.meta.value} else s.metas);
    assert Steps(s, p, cert, AtNic(0, e), s');
    StepReached(s, p, cert, AtNic(0, e), s');
  }

  // ---------------------------------------------------------------- a session's run inside the system

  /** A NIC with one connection, not yet handed over. */
  predicate Serves(s: Sys)
  {
    |s.slots| == 1 && s.slots[0].live && !s.slots[0].idle && !s.slots[0].onload && !s.slots[0].recvMigFin
  }

  function With(s: Sys, h: Hs): Sys
    requires |s.slots| == 1
  {
    s.(slots := [s.slots[0].(hs := h)])
  }

  function Lifted(t: Session.Event): NicEvent
  {
    match t
    case Packet(r) => Record(r)
    case Drain => Queue
    case Result(result) => PkaResult(result)
    case Resumption(random) => NicEvent.Resume(random)
    case Flush(_) => Remain
    case _ => Drop
  }

  lemma QuietConn(c: Conn, p: Prims, cert: bytes, t: Session.Event)
    requires !c.idle && !c.onload && !c.recvMigFin && Completion.Quietly(c.hs, p, cert, t)
    ensures Survives(c, p, cert, Lifted(t))
    ensures Step(c, p, cert, Lifted(t)) == Silent(c.(hs := Session.Apply(c.hs, p, cert, t).h))
  {
    assert TlsEvent(c, Lifted(t)) == Some(t);
  }

  lemma LiftStep(s: Sys, p: Prims, cert: bytes, h: Hs, t: Session.Event)
    requires Serves(s) && Reachable(With(s, h), p, cert) && Completion.Quietly(h, p, cert, t)
    ensures Reachable(With(s, Completion.Do(h, p, cert, t)), p, cert)
  {
    var c := With(s, h).slots[0];
    QuietConn(c, p, cert, t);
    var s' := SlotReached(With(s, h), p, cert, Lifted(t), Silent(c.(hs := Session.Apply(h, p, cert, t).h)));
    assert s' == With(s, Completion.Do(h, p, cert, t));
  }

  lemma {:induction false} LiftRun(s: Sys, p: Prims, cert: bytes, run: seq<Hs>, events: seq<Session.Event>, r: bytes,
                                   i: nat)
    requires Serves(s) && Reachable(s, p, cert) && s.slots[0].hs == Cleared(r)
    requires Completion.QuietRun(run, events, p, cert, r) && i < |run|
    ensures Reachable(With(s, run[i]), p, cert)
    decreases i
  {
    if i == 0 {
      assert With(s, run[0]) == s;
    } else {
      var k: nat := i - 1;
      LiftRun(s, p, cert, run, events, r, k);
      LiftStep(s, p, cert, run[k], events[k]);
      assert Session.Steps(run[k], events[k], run[k + 1], p, cert);
    }
  }

  lemma Lift(s: Sys, p: Prims, cert: bytes, h: Hs, r: bytes)
    requires Serves(s) && Reachable(s, p, cert) && s.slots[0].hs == Cleared(r)
    requires Completion.QuietlyReached(h, p, cert, r)
    ensures Reachable(With(s, h), p, cert)
  {
    var run, events :| Completion.QuietRun(run, events, p, cert, r) && run[|events|] == h;
    LiftRun(s, p, cert, run, events, r, |events|);
  }

  // ---------------------------------------------------------------- one visit of the client

  /** What a client, the hardware and the random generator contribute to one handshake, and the length of the
      flight that results. */
  datatype Visit = Visit(ch: ClientHello, a1: Completion.Answer, a2: Completion.Answer, a3: Completion.Answer,
                         random: b32, flight: nat)

  function SignatureOf(v: Visit): bytes { Der.DerSignature(v.a3.0, v.a3.1) }

  predicate Welcome(v: Visit, cert: bytes)
  {
    && IsHello(v.ch) && v.ch.supported && Completion.UsesGcm(v.ch)
    && Session.SizesFit(|v.ch.raw|, |cert|, |SignatureOf(v)|, true) && v.flight == |cert| + |SignatureOf(v)| + 294
  }

  /** Addresses and numbers shared by the visits: the cookie is a function of the tuple while t_major stands. */
  datatype Place = Place(client: Client, cookie: u32, seqNo: u32, len: u16)

  function TupleOf(at: Place): Tuple { Tuple(at.client.ip, at.client.port, SERVER_IP, SSL_PORT) }

  function Expected(at: Place, flight: nat): Pair
  {
    Pair(Wrap32(at.cookie + 1 + flight), Wrap32(at.seqNo + 1 + at.len + 80))
  }

  /** The window after the SYN and a segment. */
  function WindowAt(at: Place, ackNo: u32, len: u16): Window
  {
    Window(Wrap32(at.seqNo + 1), ackNo, len, Wrap32(at.seqNo + 1))
  }

  /** A connection fresh from its SYN. */
  predicate Blank(c: Conn)
  {
    c.live && !c.idle && !c.onload && !c.recvMigFin && !c.hwsInserted && c.hs == Cleared(c.hs.serverRecords)
  }

  /** A NIC whose only slot is free and cleared. */
  predicate Vacant(s: Sys)
  {
    |s.slots| == 1 && s.slots[0] == Removed(s.slots[0])
  }

  lemma SynReached(s: Sys, p: Prims, cert: bytes, at: Place) returns (s': Sys)
    requires Reachable(s, p, cert) && Vacant(s)
    ensures Reachable(s', p, cert) && |s'.slots| == 1 && s' == s.(slots := s'.slots, nextInc := s.nextInc + 1)
    ensures var c := s'.slots[0];
            && Blank(c) && c.inc == s.nextInc && c.tuple == TupleOf(at) && c.cookie == at.cookie
            && c.w == WindowAt(at, Wrap32(at.cookie + 1), 0)
  {
    var syn := Syn(0, TupleOf(at), at.cookie, at.seqNo, 0);
    NextReached(s, p, cert, syn);
    s' := Next(s, p, cert, syn);
  }

  lemma FirstSegment(c: Conn, p: Prims, cert: bytes, at: Place, ackNo: u32, len: u16)
    requires !c.onload && c.w == WindowAt(at, Wrap32(at.cookie + 1), 0)
    ensures Step(c, p, cert, Segment(Wrap32(at.seqNo + 1), ackNo, len, [])) == Silent(c.(w := WindowAt(at, ackNo, len)))
  {}

  /** The SYN and the first segment. */
  lemma Arrives(s: Sys, p: Prims, cert: bytes, at: Place, ackNo: u32, len: u16) returns (s': Sys)
    requires Reachable(s, p, cert) && Vacant(s)
    ensures Reachable(s', p, cert) && |s'.slots| == 1 && s' == s.(slots := s'.slots, nextInc := s.nextInc + 1)
    ensures var c := s'.slots[0];
            Blank(c) && c.inc == s.nextInc && c.tuple == TupleOf(at) && c.w == WindowAt(at, ackNo, len)
  {
    var s1 := SynReached(s, p, cert, at);
    var c := s1.slots[0];
    FirstSegment(c, p, cert, at, ackNo, len);
    s' := SlotReached(s1, p, cert, Segment(Wrap32(at.seqNo + 1), ackNo, len, []),
                      Silent(c.(w := WindowAt(at, ackNo, len))));
  }

  /** A connection that holds its flight behind a key meta. */
  ghost predicate Holds(c: Conn, p: Prims, cert: bytes, v: Visit)
  {
    c.live && !c.onload && !c.recvMigFin && HoldsFlight(c.hs, p, cert, v)
  }

  ghost predicate HoldsFlight(h: Hs, p: Prims, cert: bytes, v: Visit)
  {
    && !h.released && !h.state.Active? && HandshakeProofs.Inv(h, p, cert)
    && h.step == CERTIFICATE_VERIFY && |h.buffer| == v.flight <= SERVER_RECORDS
    && h.app == RfcAppKeys(p, Fit(v.a2.0, 32), Flatten(h.msgs)) && |h.msgs| == 6
  }

  /** The pair send_key_meta puts into the header. */
  function MetaPair(w: Window, flight: nat): Pair
  {
    Pair(Wrap32(w.recvAck + flight), Wrap32(w.recvSeq + w.recvLen + 80))
  }

  function MetaOut(c: Conn, h: Hs): NicOut
  {
    var pair := MetaPair(c.w, |h.buffer|);
    NicOut(c.(hs := h, header := pair), Some(KeyMeta(c.tuple, pair, h.app, c.inc)), [], None)
  }

  /** A session routine that asks for the key meta. */
  lemma AfterMeta(c: Conn, o: Out)
    requires o.verdict == Continue && o.meta && !c.onload && !o.h.state.Active?
    ensures AfterTls(c, o) == MetaOut(c, o.h)
  {
    assert AfterTls(c, o) == SendKeyMeta(c.(hs := o.h));
  }

  lemma FlushStep(c: Conn, p: Prims, cert: bytes, o: Out)
    requires o == Session.Apply(c.hs, p, cert, Session.Flush(c.recvMigFin)) && o.verdict != Exit
    ensures Survives(c, p, cert, Remain) && Step(c, p, cert, Remain) == AfterTls(c, o)
  {}

  lemma MetaConn(c: Conn, p: Prims, cert: bytes, o: Out)
    requires o == Session.Apply(c.hs, p, cert, Session.Flush(false)) && o.verdict == Continue && o.meta
    requires !c.onload && !c.recvMigFin && !o.h.state.Active?
    ensures Survives(c, p, cert, Remain) && Step(c, p, cert, Remain) == MetaOut(c, o.h)
  {
    FlushStep(c, p, cert, o);
    AfterMeta(c, o);
  }

  lemma FlushReached(s: Sys, p: Prims, cert: bytes, o: Out) returns (s': Sys)
    requires Reachable(s, p, cert) && Serves(s)
    requires o == Session.Apply(s.slots[0].hs, p, cert, Session.Flush(false)) && o.verdict == Continue && o.meta
    requires !o.h.state.Active?
    ensures Reachable(s', p, cert)
    ensures var c := s.slots[0]; var pair := MetaPair(c.w, |o.h.buffer|);
            s' == s.(slots := [c.(hs := o.h, header := pair)],
                     metas := s.metas + {KeyMeta(c.tuple, pair, o.h.app, c.inc)})
  {
    MetaConn(s.slots[0], p, cert, o);
    s' := SlotReached(s, p, cert, Remain, MetaOut(s.slots[0], o.h));
  }

  /** The signed session, ready for the key meta. */
  ghost predicate Ready(h: Hs, p: Prims, cert: bytes, v: Visit)
  {
    && HandshakeProofs.Inv(h, p, cert) && h.step == CERTIFICATE && h.signed && !h.state.Active?
    && |h.transcript| + |h.signature| + 60 < MAX_HANDSHAKE && h.signature == SignatureOf(v)
    && h.pendingGcm && h.dhe == Fit(v.a2.0, 32)
  }

  lemma ReadyHolds(h: Hs, p: Prims, cert: bytes, v: Visit)
    requires Sound(p) && Welcome(v, cert) && Ready(h, p, cert, v)
    ensures var o := Session.Apply(h, p, cert, Session.Flush(false));
            o.verdict == Continue && o.meta && HoldsFlight(o.h, p, cert, v)
  {
    var h' := Session.Apply(h, p, cert, Session.Flush(false)).h;
    Completion.MetaLeaves(h, p, cert);
    Session.FlightLength(h', p, cert);
    HandshakeProofs.UptoAll(h'.msgs);
  }

  lemma MetaReached(s: Sys, p: Prims, cert: bytes, v: Visit) returns (s': Sys, m: KeyMeta, h: Hs)
    requires Sound(p) && Reachable(s, p, cert) && Serves(s) && Welcome(v, cert) && Ready(s.slots[0].hs, p, cert, v)
    ensures Reachable(s', p, cert) && s' == s.(slots := s'.slots, metas := s.metas + {m})
    ensures var c := s.slots[0]; var pair := MetaPair(c.w, |h.buffer|);
            && s'.slots == [c.(hs := h, header := pair)] && HoldsFlight(h, p, cert, v)
            && m == KeyMeta(c.tuple, pair, h.app, c.inc)
  {
    var c := s.slots[0];
    var o := Session.Apply(c.hs, p, cert, Session.Flush(false));
    ReadyHolds(c.hs, p, cert, v);
    s' := FlushReached(s, p, cert, o);
    h := o.h;
    m := KeyMeta(c.tuple, MetaPair(c.w, |h.buffer|), h.app, c.inc);
  }

  lemma ToReady(s: Sys, p: Prims, cert: bytes, v: Visit) returns (s': Sys)
    requires Sound(p) && Reachable(s, p, cert) && |s.slots| == 1 && Blank(s.slots[0]) && Welcome(v, cert)
    ensures Reachable(s', p, cert) && Serves(s') && s' == s.(slots := s'.slots) && Ready(s'.slots[0].hs, p, cert, v)
    ensures s'.slots[0] == s.slots[0].(hs := s'.slots[0].hs)
  {
    var r := s.slots[0].hs.serverRecords;
    var h := Completion.ToSigned(p, cert, r, v.ch, v.a1, v.a2, v.a3, v.random);
    Lift(s, p, cert, h, r);
    s' := With(s, h);
  }

  lemma ExpectedPair(at: Place, flight: nat)
    ensures MetaPair(WindowAt(at, Wrap32(at.cookie + 1), at.len), flight) == Expected(at, flight)
  {
    WrapAdd(at.cookie + 1, flight);
    WrapAdd(at.seqNo + 1, at.len + 80);
  }

  /** From a free slot to the key meta. */
  lemma Visits(s: Sys, p: Prims, cert: bytes, at: Place, v: Visit) returns (s': Sys, m: KeyMeta)
    requires Sound(p) && Reachable(s, p, cert) && Vacant(s) && Welcome(v, cert)
    ensures Reachable(s', p, cert) && |s'.slots| == 1 && Holds(s'.slots[0], p, cert, v)
    ensures s' == s.(slots := s'.slots, nextInc := s.nextInc + 1, metas := s.metas + {m})
    ensures var c := s'.slots[0];
            m == KeyMeta(c.tuple, c.header, c.hs.app, c.inc) && c.tuple == TupleOf(at) && c.inc == s.nextInc
    ensures m.pair == Expected(at, v.flight)
  {
    var s1 := Arrives(s, p, cert, at, Wrap32(at.cookie + 1), at.len);
    var s2 := ToReady(s1, p, cert, v);
    var h;
    s', m, h := MetaReached(s2, p, cert, v);
    ExpectedPair(at, v.flight);
  }

  /** The host installs the connection, finishes its TLS side and answers. */
  lemma HostAnswers(s: Sys, p: Prims, cert: bytes, m: KeyMeta) returns (s': Sys)
    requires Reachable(s, p, cert) && m in s.metas && ClientOf(m.tuple) !in s.table
    ensures Reachable(s', p, cert)
    ensures s' == s.(table := s'.table, installs := s.installs + {HostConn(m, true, SockInit)}, fins := s'.fins)
    ensures FinFor(HostConn(m, true, SockInit)) in s'.fins && ClientOf(m.tuple) in s'.table
  {
    var k := ClientOf(m.tuple);
    NextReached(s, p, cert, KeyAtHost(m, Migrated));
    var s1 := Next(s, p, cert, KeyAtHost(m, Migrated));
    NextReached(s1, p, cert, HostTls(k));
    var s2 := Next(s1, p, cert, HostTls(k));
    NextReached(s2, p, cert, HostReady(k));
    s' := Next(s2, p, cert, HostReady(k));
    assert FinFor(s2.table[k]) == FinFor(HostConn(m, true, SockInit));
  }

  /** The client resets: an alert aborts the NIC's connection and frees its slot, while the host keeps its own. */
  lemma Leaves(s: Sys, p: Prims, cert: bytes, v: Visit) returns (s': Sys)
    requires Reachable(s, p, cert) && |s.slots| == 1 && Holds(s.slots[0], p, cert, v)
    ensures Reachable(s', p, cert) && Vacant(s') && s' == s.(slots := s'.slots)
  {
    var c, e := s.slots[0], Record(AlertRec(2, 0));
    var o := ProcessRead(c.hs, p, AlertRec(2, 0));
    assert o == Quiet(c.hs).(verdict := Abort);
    assert Step(c, p, cert, e) == AfterTls(c, o) == Silent(Removed(c));
    s' := SlotReached(s, p, cert, e, Silent(Removed(c)));
  }

  /** One slot, nothing sent yet. */
  function Start(): Sys
  {
    var blank := Conn(false, true, 0, NO_TUPLE, 0, Window(0, 0, 0, 0), false, false, false, false, false, [],
                      Pair(0, 0), Cleared([]), None, 0);
    Sys([blank], 0, {}, map[], {}, {}, {})
  }

  lemma StartVacant(p: Prims, cert: bytes) returns (s: Sys)
    ensures Reachable(s, p, cert) && Vacant(s) && s == Sys(s.slots, 0, {}, map[], {}, {}, {})
  {
    s := Start();
    assert s.slots[0] == Removed(s.slots[0]);
    StartReached(s, p, cert);
  }

  /** A first visit that is handed to the host, answered, and then left. */
  lemma FirstVisit(p: Prims, cert: bytes, at: Place, v: Visit) returns (s: Sys, m: KeyMeta)
    requires Sound(p) && Welcome(v, cert)
    ensures Reachable(s, p, cert) && Vacant(s) && s.nextInc == 1
    ensures m.tuple == TupleOf(at) && m.inc == 0 && m.pair == Expected(at, v.flight)
    ensures exists flight :: m.keys == RfcAppKeys(p, Fit(v.a2.0, 32), flight)
    ensures s.metas == {m} && s.installs == {HostConn(m, true, SockInit)} && Fin(TupleOf(at), m.pair) in s.fins
    ensures ClientOf(TupleOf(at)) in s.table
  {
    var s0 := StartVacant(p, cert);
    var s1;
    s1, m := Visits(s0, p, cert, at, v);
    var s2 := HostAnswers(s1, p, cert, m);
    s := Leaves(s2, p, cert, v);
  }

  // ---------------------------------------------------------------- a pair that is not fresh

  /** Freshness cannot be dropped from Migration.ReleasedOnlyAfterInstall: a client that comes back with the
      numbers of its earlier visit, while the cookie's clock has not moved, gets its flight released by the
      answer to that visit. The host then holds the earlier incarnation's keys, which are the key schedule's
      for the earlier shared secret, and nothing was installed for this one. */
  lemma StalePairReleases(p: Prims, cert: bytes, at: Place, v1: Visit, v2: Visit)
    returns (s: Sys, stale: HostConn, flight: bytes)
    requires Sound(p) && Welcome(v1, cert) && Welcome(v2, cert) && v1.flight == v2.flight
    ensures Reachable(s, p, cert) && |s.slots| == 1 && s.slots[0].live && s.slots[0].hs.released
    ensures var c := s.slots[0];
            && c.tuple == TupleOf(at) && c.matched == Some(stale.meta.pair)
            && s.installs == {stale} && stale.meta.tuple == c.tuple && stale.meta.inc < c.inc
            && stale.meta.keys == RfcAppKeys(p, Fit(v1.a2.0, 32), flight)
            && c.hs.app == RfcAppKeys(p, Fit(v2.a2.0, 32), Flatten(c.hs.msgs))
  {
    var s1, m1 := FirstVisit(p, cert, at, v1);
    flight :| m1.keys == RfcAppKeys(p, Fit(v1.a2.0, 32), flight);
    stale := HostConn(m1, true, SockInit);
    var s2, m2 := Visits(s1, p, cert, at, v2);
    s := Delivered(s2, p, cert, v2);
  }

  lemma FinReached(s: Sys, p: Prims, cert: bytes) returns (s': Sys)
    requires Reachable(s, p, cert) && |s.slots| == 1 && s.slots[0].live
    requires Fin(s.slots[0].tuple, s.slots[0].header) in s.fins
    ensures Reachable(s', p, cert)
    ensures var c := s.slots[0]; s' == s.(slots := [c.(recvMigFin := true, matched := Some(c.header))])
  {
    var c := s.slots[0];
    s' := SlotReached(s, p, cert, MigFin(c.header), Silent(c.(recvMigFin := true, matched := Some(c.header))));
  }

  /** A session routine that releases the flight. */
  lemma WireConn(c: Conn, o: Out)
    requires o.verdict == Continue && !o.meta && o.wire.Some? && !o.h.state.Active? && !c.onload && c.live
    ensures var out := AfterTls(c, o);
            && out.meta == None && out.c.hs == o.h && out.c.live && out.c.inc == c.inc && out.c.tuple == c.tuple
            && out.c.matched == c.matched
  {}

  lemma ReleaseReached(s: Sys, p: Prims, cert: bytes) returns (s': Sys)
    requires Reachable(s, p, cert) && |s.slots| == 1
    requires var c := s.slots[0];
             && c.live && !c.onload && c.recvMigFin && c.hs.step == CERTIFICATE_VERIFY
             && |c.hs.buffer| <= SERVER_RECORDS && !c.hs.state.Active?
    ensures Reachable(s', p, cert) && |s'.slots| == 1 && s' == s.(slots := s'.slots)
    ensures var c, c' := s.slots[0], s'.slots[0];
            && c'.live && c'.inc == c.inc && c'.tuple == c.tuple && c'.matched == c.matched && c'.hs == Release(c.hs)
  {
    var c := s.slots[0];
    var o := Out(Release(c.hs), None, false, Some(c.hs.buffer), Continue);
    assert TlsEvent(c, Remain) == Some(Session.Flush(true));
    assert SendRemain(c.hs, p, cert, true) == o;
    WireConn(c, o);
    s' := SlotReached(s, p, cert, Remain, AfterTls(c, o));
  }

  /** The mig-fin that names the held pair arrives, and the flight leaves. */
  lemma Delivered(s: Sys, p: Prims, cert: bytes, v: Visit) returns (s': Sys)
    requires Reachable(s, p, cert) && |s.slots| == 1 && Holds(s.slots[0], p, cert, v)
    requires Fin(s.slots[0].tuple, s.slots[0].header) in s.fins
    ensures Reachable(s', p, cert) && s' == s.(slots := s'.slots) && |s'.slots| == 1
    ensures var c, c' := s.slots[0], s'.slots[0];
            && c'.live && c'.hs.released && c'.matched == Some(c.header) && c'.inc == c.inc && c'.tuple == c.tuple
            && c'.hs.app == c.hs.app && c'.hs.msgs == c.hs.msgs
  {
    var s1 := FinReached(s, p, cert);
    s' := ReleaseReached(s1, p, cert);
  }

  // Primitives small enough to compute with: every secret starts with the first byte of the shared secret.

  function First(b: bytes): byte { if b == [] then 0 else b[0] }

  function Small(): Prims
  {
    Prims((m: bytes) => Zeros(48),
          (k: bytes, m: bytes) => Fit([(First(k) + First(m)) % 256], 48),
          (s: bytes, l: Label, c: bytes, n: nat) => Fit([First(s)], n),
          (k: bytes, n: bytes, a: bytes, m: bytes) => m + Zeros(TAG),
          (k: bytes, n: bytes, a: bytes, c: bytes) => if |c| >= TAG then Some(c[..|c| - TAG]) else None)
  }

  lemma SmallIsSound()
    ensures Sound(Small())
  {
    var p := Small();
    assert forall k: bytes, m: bytes :: p.hmac(k, m) == Fit([(First(k) + First(m)) % 256], 48);
    forall k: bytes, n: bytes, a: bytes, m: bytes
      ensures p.open(k, n, a, p.seal(k, n, a, m)) == Some(m)
    {
      assert (m + Zeros(TAG))[..|m|] == m;
    }
  }

  lemma SmallKeys(dhe: bytes, flight: bytes)
    ensures First(RfcAppKeys(Small(), dhe, flight).clientKey) == First(dhe)
  {
    var p := Small();
    assert First(EarlySecret(p)) == 0;
    assert First(HandshakeSecret(p, dhe)) == First(dhe);
    assert First(MasterSecret(p, dhe)) == First(dhe);
  }

  /** A visit whose shared secret starts with `b`. */
  function VisitWith(b: byte): Visit
  {
    var ch := ClientHello([1], true, [3, 3], Zeros(32), [GCM_SUITE], [[4, 3]]);
    var a3 := ([1], [1]);
    Visit(ch, ([], []), ([b], []), a3, Zeros(32), |Der.DerSignature(a3.0, a3.1)| + 294)
  }

  lemma SmallVisit(b: byte)
    ensures Welcome(VisitWith(b), []) && Fit(VisitWith(b).a2.0, 32)[0] == b
    ensures VisitWith(b).flight == |Der.DerSignature([1], [1])| + 294
  {
    assert SignatureOf(VisitWith(b)) == Der.DerSignature([1], [1]);
  }

  /** One run in which a flight is released while the host holds other keys than the released connection. */
  lemma StaleKeysDiffer() returns (s: Sys, stale: HostConn)
    ensures Reachable(s, Small(), []) && |s.slots| == 1 && s.slots[0].live && s.slots[0].hs.released
    ensures s.installs == {stale} && stale.meta.tuple == s.slots[0].tuple && s.slots[0].matched == Some(stale.meta.pair)
    ensures stale.meta.keys != s.slots[0].hs.app
  {
    SmallIsSound();
    var flight;
    var at := Place(Client(1, 1), 0, 0, 100);
    var v1, v2 := VisitWith(1), VisitWith(2);
    SmallVisit(1);
    SmallVisit(2);
    s, stale, flight := StalePairReleases(Small(), [], at, v1, v2);
    SmallKeys(Fit(v1.a2.0, 32), flight);
    SmallKeys(Fit(v2.a2.0, 32), Flatten(s.slots[0].hs.msgs));
  }

  // ---------------------------------------------------------------- a Finished against nothing

  /** An application-data record whose verify_data is what a cleared slot holds. */
  const BLANK: Rec := DataRec([], Zeros(52) + [HANDSHAKE])

  lemma BlankAccepted(h: Hs, p: Prims)
    requires h == Cleared(h.serverRecords)
    ensures Arrive(h, p, BLANK) == Quiet(h.(step := FINISHED, state := Active, accepted := Some(Zeros(48))))
  {
    var content: bytes := Zeros(52) + [HANDSHAKE];
    assert (content + Zeros(52))[4..52] == Zeros(48) == Fit([], 48);
    assert ProcessRead(h, p, BLANK) == HandleInner(h, content);
    assert HandleInner(h, content) == HandleFinished(h, Zeros(48));
  }

  lemma BlankReached(s: Sys, p: Prims, cert: bytes) returns (s': Sys)
    requires Reachable(s, p, cert) && |s.slots| == 1 && Blank(s.slots[0])
    ensures Reachable(s', p, cert)
    ensures var c := s.slots[0];
            s' == s.(slots := [c.(hs := c.hs.(step := FINISHED, state := Active, accepted := Some(Zeros(48))),
                                  onload := true)])
  {
    var c := s.slots[0];
    BlankAccepted(c.hs, p);
    var o := Quiet(c.hs.(step := FINISHED, state := Active, accepted := Some(Zeros(48))));
    assert TlsEvent(c, Record(BLANK)) == Some(Session.Packet(BLANK));
    assert AfterTls(c, o) == Silent(c.(hs := o.h, onload := true));
    s' := SlotReached(s, p, cert, Record(BLANK), Silent(c.(hs := o.h, onload := true)));
  }

  /** The pair send_rst_conn_meta puts into the header when nothing is queued. */
  function ResetPair(w: Window): Pair
  {
    Pair(w.recvAck, Wrap32(w.recvSeq + w.recvLen))
  }

  lemma ResetIsExpected(at: Place, flight: nat, len: u16)
    requires len == at.len + 80
    ensures ResetPair(WindowAt(at, Expected(at, flight).seqNo, len)) == Expected(at, flight)
  {
    WrapAdd(at.seqNo + 1, at.len + 80);
  }

  /** A mig-fin for the pair the header would be rewritten to leaves that pair in it. */
  lemma HeaderReached(s: Sys, p: Prims, cert: bytes, pair: Pair) returns (s': Sys)
    requires Reachable(s, p, cert) && |s.slots| == 1 && s.slots[0].live && Fin(s.slots[0].tuple, pair) in s.fins
    requires var c := s.slots[0]; c.hs.buffer == [] && pair == ResetPair(c.w)
    ensures Reachable(s', p, cert) && |s'.slots| == 1 && s' == s.(slots := s'.slots)
    ensures var c, c' := s.slots[0], s'.slots[0];
            c' == c.(header := pair, recvMigFin := c'.recvMigFin, matched := c'.matched)
  {
    var c := s.slots[0];
    assert Wrap32(c.w.recvAck + 0) == c.w.recvAck;
    s' := SlotReached(s, p, cert, MigFin(pair), HostMigFin(c, pair));
  }

  lemma ApplyReached(s: Sys, p: Prims, cert: bytes) returns (s': Sys)
    requires Reachable(s, p, cert) && |s.slots| == 1
    requires var c := s.slots[0]; c.live && c.hs.state.Active? && c.recvMigFin && !c.hwsInserted
    ensures Reachable(s', p, cert) && s' == s.(slots := [s.slots[0].(hwsInserted := true, hwsApplied := true)])
  {
    s' := SlotReached(s, p, cert, Apply, Silent(s.slots[0].(hwsInserted := true, hwsApplied := true)));
  }

  /** Steering is applied to a session that never saw a ClientHello: for a client that sends a protected
      record first, Migration.HandoffVerified fails in every one of its conclusions. */
  lemma UnverifiedHandoff(p: Prims, cert: bytes, at: Place, v: Visit) returns (s: Sys)
    requires Sound(p) && Welcome(v, cert) && at.len + 80 < 0x1_0000
    ensures Reachable(s, p, cert) && |s.slots| == 1 && s.slots[0].live && s.slots[0].hwsApplied
    ensures var h := s.slots[0].hs; h.msgs == [] && h.vd == [] && !h.released && h.keys == NO_KEYS && h.state.Active?
  {
    var s1, m := FirstVisit(p, cert, at, v);
    var s2 := Arrives(s1, p, cert, at, m.pair.seqNo, at.len + 80);
    ResetIsExpected(at, v.flight, at.len + 80);
    var s3 := BlankReached(s2, p, cert);
    var s4 := HeaderReached(s3, p, cert, m.pair);
    var s5 := FinReached(s4, p, cert);
    s := ApplyReached(s5, p, cert);
  }

  // ---------------------------------------------------------------- a slot that is not cleared

  /** A record that reaches the only slot, live or free. */
  lemma RecordReached(s: Sys, p: Prims, cert: bytes, r: Rec, c': Conn) returns (s': Sys)
    requires Reachable(s, p, cert) && |s.slots| == 1 && Step(s.slots[0], p, cert, Record(r)) == Silent(c')
    requires Arrive(s.slots[0].hs, p, r).verdict != Exit
    ensures Reachable(s', p, cert) && s' == s.(slots := [c'])
  {
    s' := s.(slots := [c']);
    assert Steps(s, p, cert, AtNic(0, Record(r)), s');
    StepReached(s, p, cert, AtNic(0, Record(r)), s');
  }

  /** The system after FreeSlots.CcsAfterAlert. */
  lemma TaintReached(s: Sys, p: Prims, cert: bytes) returns (s': Sys)
    requires Reachable(s, p, cert) && |s.slots| == 1 && FreeSlots.Listening(s.slots[0])
    ensures Reachable(s', p, cert) && s' == s.(slots := [FreeSlots.Tainted(s.slots[0])])
  {
    var c := s.slots[0];
    FreeSlots.FatalAborts(c, p, cert);
    FreeSlots.CcsTaints(c, p, cert);
    var s1 := RecordReached(s, p, cert, FreeSlots.FATAL, Removed(c));
    s' := RecordReached(s1, p, cert, CcsRec, FreeSlots.Tainted(c));
  }

  /** FreeSlots.FreeIsClear needs its condition: in a run from the start one client's two records, a fatal alert
      and a ChangeCipherSpec, leave the slot so that the next client, whoever it is, gets a session that is
      derailed from its SYN on. */
  lemma NextClientDerailed(p: Prims, cert: bytes, first: Place, next: Place) returns (s: Sys)
    ensures Reachable(s, p, cert) && |s.slots| == 1 && s.slots[0].live && s.slots[0].tuple == TupleOf(next)
    ensures Session.Derailed(s.slots[0].hs) && s.slots[0].hs.step == CLIENT_CIPHER_SPEC
  {
    var s0 := StartVacant(p, cert);
    var s1 := SynReached(s0, p, cert, first);
    var s2 := TaintReached(s1, p, cert);
    var syn := Syn(0, TupleOf(next), next.cookie, next.seqNo, 0);
    NextReached(s2, p, cert, syn);
    s := Next(s2, p, cert, syn);
  }
}
