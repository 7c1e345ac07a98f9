/** What the protocol can still do: continuations of the whole system from any state of the kind named. A lost key
    meta is sent again for a repeated ClientHello, a held flight can leave, a closed connection goes. */
module Recovery {
  import opened Bytes
  import opened Tls
  import opened Handshake
  import HandshakeProofs
  import Session
  import opened Chains
  import opened SeqNum
  import opened Segments
  import opened Nic
  import opened NicProofs
  import opened Migration

  ghost function Link(p: Prims, cert: bytes): (Sys, SysEvent, Sys) -> bool
  {
    (s, ev, s') => Steps(s, p, cert, ev, s')
  }

  /** Events can lead from `s` to `s'`. */
  ghost predicate Leads(s: Sys, p: Prims, cert: bytes, s': Sys)
  {
    exists run, events :: Chain(Link(p, cert), run, events) && run[0] == s && run[|events|] == s'
  }

  lemma LeadsNowhere(s: Sys, p: Prims, cert: bytes)
    ensures Leads(s, p, cert, s)
  {
    var run: seq<Sys>, events: seq<SysEvent> := [s], [];
    assert Chain(Link(p, cert), run, events) && run[0] == s && run[|events|] == s;
  }

  lemma LeadsOn(s: Sys, p: Prims, cert: bytes, mid: Sys, ev: SysEvent, s': Sys)
    requires Leads(s, p, cert, mid) && Link(p, cert)(mid, ev, s')
    ensures Leads(s, p, cert, s')
  {
    var run, events :| Chain(Link(p, cert), run, events) && run[0] == s && run[|events|] == mid;
    Grow(Link(p, cert), run, events, ev, s');
    var run', events' := run + [s'], events + [ev];
    assert run'[0] == s && run'[|events'|] == s';
  }

  /** An event at a slot. */
  lemma SlotLeads(s: Sys, p: Prims, cert: bytes, mid: Sys, slot: nat, e: NicEvent, o: NicOut) returns (s': Sys)
    requires Leads(s, p, cert, mid) && slot < |mid.slots| && mid.slots[slot].live
    requires Survives(mid.slots[slot], p, cert, e) && o == Step(mid.slots[slot], p, cert, e)
    requires e.MigFin? ==> Fin(mid.slots[slot].tuple, e.pair) in mid.fins
    requires e.Close? ==> Fin(mid.slots[slot].tuple, e.pair) in mid.closes
    ensures Leads(s, p, cert, s')
    ensures s' == mid.(slots := mid.slots[slot := o.c],
                       metas := if o.meta.Some? then mid.metas + {o.meta.value} else mid.metas)
  {
    s' := Next(mid, p, cert, AtNic(slot, e));
    assert Steps(mid, p, cert, AtNic(slot, e), s');
    LeadsOn(s, p, cert, mid, AtNic(slot, e), s');
  }

  lemma HostLeads(s: Sys, p: Prims, cert: bytes, mid: Sys, ev: SysEvent)
    requires Leads(s, p, cert, mid) && Enabled(mid, p, cert, ev)
    ensures Leads(s, p, cert, Next(mid, p, cert, ev))
  {
    assert Steps(mid, p, cert, ev, Next(mid, p, cert, ev));
    LeadsOn(s, p, cert, mid, ev, Next(mid, p, cert, ev));
  }

  // ---------------------------------------------------------------- a lost key meta

  /** A connection that holds its flight back for the host. */
  ghost predicate HoldsFlight(c: Conn, p: Prims, cert: bytes)
  {
    c.live && Flags(c) && HandshakeProofs.Inv(c.hs, p, cert) && c.hs.step == CERTIFICATE_VERIFY
  }

  /** The pair a key meta sent now would name: the end of the flight and of the client's second flight. */
  function CurrentPair(c: Conn): Pair
  {
    Pair(Wrap32(c.w.recvAck + |c.hs.buffer|), Wrap32(c.w.recvSeq + c.w.recvLen + 80))
  }

  function CurrentMeta(c: Conn): KeyMeta
  {
    KeyMeta(c.tuple, CurrentPair(c), c.hs.app, c.inc)
  }

  lemma HelloBringsMeta(c: Conn, p: Prims, cert: bytes, r: Rec)
    requires HoldsFlight(c, p, cert) && (r.HelloRec? || r.HandshakeRec?)
    ensures Survives(c, p, cert, Record(r))
    ensures Step(c, p, cert, Record(r)) == NicOut(c.(header := CurrentPair(c)), Some(CurrentMeta(c)), [], None)
  {
    HandshakeProofs.RepeatedHello(c.hs, p, cert, r);
    var o := Arrive(c.hs, p, r);
    assert o == Out(c.hs, None, true, None, Continue);
    assert TlsEvent(c, Record(r)) == Some(Session.Packet(r));
    MetaAfter(c, o);
  }

  lemma MetaAfter(c: Conn, o: Out)
    requires c.live && Flags(c) && !c.hs.state.Active? && o == Out(c.hs, None, true, None, Continue)
    ensures AfterTls(c, o) == NicOut(c.(header := CurrentPair(c)), Some(CurrentMeta(c)), [], None)
  {
    var c1 := c.(hs := o.h, onload := c.onload || o.h.state.Active?, idle := c.idle && !o.h.state.Active?);
    assert c1 == c;
  }

  /** Whatever happened to earlier key metas, a repeated ClientHello puts one that names this connection's pair and
      keys into the channel, and changes nothing else of it. */
  lemma LostMetaRecovers(s: Sys, p: Prims, cert: bytes, slot: nat, r: Rec) returns (s': Sys)
    requires slot < |s.slots| && HoldsFlight(s.slots[slot], p, cert) && (r.HelloRec? || r.HandshakeRec?)
    ensures Leads(s, p, cert, s')
    ensures var c := s.slots[slot];
            s' == s.(slots := s.slots[slot := c.(header := CurrentPair(c))], metas := s.metas + {CurrentMeta(c)})
  {
    var c := s.slots[slot];
    HelloBringsMeta(c, p, cert, r);
    LeadsNowhere(s, p, cert);
    s' := SlotLeads(s, p, cert, s, slot, Record(r),
                    NicOut(c.(header := CurrentPair(c)), Some(CurrentMeta(c)), [], None));
  }

  /** The host installs a connection it does not know and answers. */
  lemma HostAnswers(s: Sys, p: Prims, cert: bytes, mid: Sys, m: KeyMeta) returns (s': Sys)
    requires Leads(s, p, cert, mid) && m in mid.metas && ClientOf(m.tuple) !in mid.table
    ensures Leads(s, p, cert, s') && s'.slots == mid.slots
    ensures FinFor(HostConn(m, true, SockInit)) in s'.fins && HostConn(m, true, SockInit) in s'.installs
    ensures ClientOf(m.tuple) in s'.table && s'.table[ClientOf(m.tuple)] == HostConn(m, true, Serving)
  {
    var k := ClientOf(m.tuple);
    HostLeads(s, p, cert, mid, KeyAtHost(m, Migrated));
    var s1 := Next(mid, p, cert, KeyAtHost(m, Migrated));
    HostLeads(s, p, cert, s1, HostTls(k));
    var s2 := Next(s1, p, cert, HostTls(k));
    HostLeads(s, p, cert, s2, HostReady(k));
    s' := Next(s2, p, cert, HostReady(k));
    assert FinFor(s2.table[k]) == FinFor(HostConn(m, true, SockInit));
  }

  /** A session routine that releases the flight, at its connection. */
  lemma ReleaseAfter(c: Conn, o: Out)
    requires c.live && !o.h.state.Active? && o.verdict == Continue && !o.meta && o.wire.Some?
    ensures var out := AfterTls(c, o);
            && out.c.hs == o.h && out.c.live && out.c.tuple == c.tuple && out.c.matched == c.matched && out.meta == None
            && out.wire == Cut(c.w.recvAck, Truncated(o.wire.value))
  {}

  lemma ReleaseStep(c: Conn, p: Prims, cert: bytes)
    requires c.live && c.recvMigFin && c.hs.step == CERTIFICATE_VERIFY && |c.hs.buffer| <= SERVER_RECORDS
    requires !c.hs.state.Active?
    ensures Survives(c, p, cert, Remain)
    ensures var out := Step(c, p, cert, Remain);
            && out.c.live && out.c.hs == Release(c.hs) && out.c.matched == c.matched
            && out.wire == Cut(c.w.recvAck, Truncated(c.hs.buffer))
  {
    var o := Out(Release(c.hs), None, false, Some(c.hs.buffer), Continue);
    assert TlsEvent(c, Remain) == Some(Session.Flush(true)) && SendRemain(c.hs, p, cert, true) == o;
    ReleaseAfter(c, o);
  }

  /** From every state in which a connection of the served address holds a flight that fits, and the host does not know
      the client, the system can go on to release it, with this connection's keys installed at the host. */
  lemma FlightCanLeave(s: Sys, p: Prims, cert: bytes, slot: nat, r: Rec) returns (s': Sys)
    requires slot < |s.slots| && HoldsFlight(s.slots[slot], p, cert) && (r.HelloRec? || r.HandshakeRec?)
    requires var c := s.slots[slot];
             && c.tuple.serverIp == SERVER_IP && c.tuple.serverPort == SSL_PORT && ClientOf(c.tuple) !in s.table
             && |c.hs.buffer| <= SERVER_RECORDS
    ensures Leads(s, p, cert, s') && slot < |s'.slots|
    ensures var c, c' := s.slots[slot], s'.slots[slot];
            && c'.live && c'.hs == Release(c.hs) && c'.matched == Some(CurrentPair(c))
            && HostConn(CurrentMeta(c), true, SockInit) in s'.installs
  {
    var c := s.slots[slot];
    var pair := CurrentPair(c);
    var s1 := LostMetaRecovers(s, p, cert, slot, r);
    var s2 := HostAnswers(s, p, cert, s1, CurrentMeta(c));
    assert FinFor(HostConn(CurrentMeta(c), true, SockInit)) == Fin(c.tuple, pair);
    var c2 := c.(header := pair);
    var c3 := c2.(recvMigFin := true, matched := Some(pair));
    assert Step(c2, p, cert, MigFin(pair)) == Silent(c3);
    var s3 := SlotLeads(s, p, cert, s2, slot, MigFin(pair), Silent(c3));
    ReleaseStep(c3, p, cert);
    s' := SlotLeads(s, p, cert, s3, slot, Remain, Step(c3, p, cert, Remain));
  }

  // ---------------------------------------------------------------- closing

  /** A steered connection whose entry the host closes can be removed from the NIC: the close names the pair the header
      still holds. */
  lemma CloseRemoves(s: Sys, p: Prims, cert: bytes, slot: nat) returns (s': Sys)
    requires slot < |s.slots| && s.slots[slot].live && s.slots[slot].hwsApplied
    requires var c := s.slots[slot]; var k := ClientOf(c.tuple);
             k in s.table && s.table[k].tcp && FinFor(s.table[k]) == Fin(c.tuple, c.header)
    ensures Leads(s, p, cert, s') && slot < |s'.slots| && s'.slots[slot] == Removed(s.slots[slot])
    ensures ClientOf(s.slots[slot].tuple) !in s'.table
  {
    var c := s.slots[slot];
    var k := ClientOf(c.tuple);
    LeadsNowhere(s, p, cert);
    HostLeads(s, p, cert, s, HostCloses(k));
    var s1 := Next(s, p, cert, HostCloses(k));
    var c1 := c.(readyToDel := true);
    assert Step(c, p, cert, Close(c.header)) == Silent(c1);
    var s2 := SlotLeads(s, p, cert, s1, slot, Close(c.header), Silent(c1));
    assert Step(c1, p, cert, Remove) == Silent(Removed(c1));
    s' := SlotLeads(s, p, cert, s2, slot, Remove, Silent(Removed(c1)));
  }

  /** The sweep removes only steered connections for whose tuple the host has sent a close, which in turn was sent for a
      connection it had installed. */
  lemma SweptOnlyAfterClose(run: seq<Sys>, events: seq<SysEvent>, p: Prims, cert: bytes, i: nat, slot: nat)
    returns (close: Fin)
    requires Run(run, events, p, cert) && i < |events| && events[i] == AtNic(slot, Remove)
    requires slot < |run[i].slots| && run[i].slots[slot].live
    requires slot < |run[i + 1].slots| && !run[i + 1].slots[slot].live
    ensures var s := run[i]; var c := s.slots[slot];
            && c.hwsApplied && close in s.closes && close.tuple == c.tuple
            && Recorded(s, ClientOf(close.tuple), close.pair)
  {
    RunInv(run, events, p, cert, i);
    assert Steps(run[i], p, cert, events[i], run[i + 1]);
    var s := run[i];
    var c := s.slots[slot];
    assert SlotOk(s, c);
    assert Step(c, p, cert, Remove).c == RemoveHws(c);
    close :| close in s.closes && close.tuple == c.tuple;
  }

  // ---------------------------------------------------------------- the client's Finished

  lemma DataAfter(c: Conn, o: Out)
    requires c.live && Flags(c) && !c.hs.state.Active?
    requires o.h.serverRecords == c.hs.serverRecords && !o.meta && o.wire.None?
    ensures var c' := AfterTls(c, o).c;
            if o.verdict == Abort then c' == Removed(c)
            else c'.live && c'.hs == o.h && (c'.onload <==> o.h.state.Active?)
  {}

  /** In every run: behind the ChangeCipherSpec of a client that kept the order so far, a protected handshake message
      removes the connection exactly when its verify_data is not the RFC's over all six messages, and onloads it
      otherwise; nothing else that is protected does either. */
  lemma FinishedDecides(run: seq<Sys>, events: seq<SysEvent>, p: Prims, cert: bytes, j: nat, i: nat, slot: nat, r: Rec)
    requires Sound(p) && Run(run, events, p, cert) && j <= i < |run| && slot < |run[i].slots|
    requires (j == 0 || ClearedAt(run[j], slot)) && OrderlyAt(run, events, slot, j, i)
    requires var c := run[i].slots[slot]; c.live && c.hs.step == CLIENT_CIPHER_SPEC && !c.hs.state.Active? && r.DataRec?
    ensures var c := run[i].slots[slot]; var c' := Step(c, p, cert, Record(r)).c;
            var content := HandshakeProofs.Content(c.hs, p, r);
            var wrong := HandshakeProofs.IsHandshake(content)
                         && HandshakeProofs.VerifyDataIn(content.value)
                            != FinishedMac(p, c.hs.keys.clientSecret, Flatten(c.hs.msgs));
            && (if wrong then c' == Removed(c) else c'.live)
            && (c'.onload <==> HandshakeProofs.IsHandshake(content) && !wrong)
  {
    RunInv(run, events, p, cert, i);
    var c := run[i].slots[slot];
    assert SlotOk(run[i], c);
    SlotInv(run, events, p, cert, j, i, slot);
    HandshakeProofs.ClientFinishedIff(c.hs, p, cert, r);
    FinishedFrame(c.hs, p, r);
    assert TlsEvent(c, Record(r)) == Some(Session.Packet(r));
    DataAfter(c, Arrive(c.hs, p, r));
  }

  lemma FinishedFrame(h: Hs, p: Prims, r: Rec)
    requires r.DataRec? && !h.waiting
    ensures var o := Arrive(h, p, r); o.h.serverRecords == h.serverRecords && !o.meta && o.wire.None?
  {
    var o := ProcessRead(h, p, r);
    var clear := p.open(h.keys.clientKey, Nonce(Fit(h.keys.clientIv, 12), 0), r.header, r.body);
    assert o == Quiet(h) || o == HandleInner(h, r.body) || (clear.Some? && o == HandleInner(h, clear.value));
  }

  lemma SlotInv(run: seq<Sys>, events: seq<SysEvent>, p: Prims, cert: bytes, j: nat, i: nat, slot: nat)
    requires Sound(p) && Run(run, events, p, cert) && j <= i < |run| && slot < |run[i].slots|
    requires (j == 0 || ClearedAt(run[j], slot)) && OrderlyAt(run, events, slot, j, i)
    ensures HandshakeProofs.Inv(run[i].slots[slot].hs, p, cert)
  {
    if j == 0 {
      SameSlots(run, events, p, cert, i);
      StartCleared(run, events, p, cert, slot);
    }
    OrderlyInv(run, events, p, cert, j, i, slot);
  }
}
