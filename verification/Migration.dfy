/** The handoff between NIC and host over a meta channel that loses, duplicates, delays and reorders:
    the channel is the set of messages ever sent, and any of them can arrive at any time, any number of
    times, or never. Clients are arbitrary unless a lemma names an assumption, and a run ends with the NIC's
    process. */
module Migration {
  import opened Bytes
  import opened Tls
  import opened Handshake
  import HandshakeProofs
  import Session
  import opened Nic
  import opened NicProofs

  const SERVER_IP: u32 := 0x0A00_0002
  const SSL_PORT: u16 := 443

  /** Mig-fin and close messages; the host fills in its own address and port. */
  datatype Fin = Fin(tuple: Tuple, pair: Pair)

  datatype SockState = SockInit | Connected | Serving

  /** A host connection remembers the key meta it was made from. `tcp` says that mig_tcp_conn succeeded. */
  datatype HostConn = HostConn(meta: KeyMeta, tcp: bool, sock: SockState)

  datatype Client = Client(ip: u32, port: u16)

  function ClientOf(t: Tuple): Client { Client(t.clientIp, t.clientPort) }

  function FinFor(c: HostConn): Fin
  {
    Fin(Tuple(c.meta.tuple.clientIp, c.meta.tuple.clientPort, SERVER_IP, SSL_PORT), c.meta.pair)
  }

  datatype Sys = Sys(
    slots: seq<Conn>,
    nextInc: nat,
    metas: set<KeyMeta>,          // key metas ever sent
    table: map<Client, HostConn>, // the host's connection table
    installs: set<HostConn>,      // host connections ever entered: a history variable
    fins: set<Fin>,               // mig-fins ever sent
    closes: set<Fin>)             // closes ever sent

  /** How handle_key_packet ends once the connection is in the table. */
  datatype Outcome = NonblockFails | TcpFails | Migrated

  datatype SysEvent =
    | AtNic(slot: nat, e: NicEvent)
    | Syn(slot: nat, tuple: Tuple, cookie: u32, seqNo: u32, len: u16)
    | KeyAtHost(m: KeyMeta, outcome: Outcome)
    | HostTls(k: Client)
    | HostReady(k: Client)
    | HostCloses(k: Client)

  predicate Enabled(s: Sys, p: Prims, cert: bytes, ev: SysEvent)
  {
    match ev
    case AtNic(slot, e) =>
      && slot < |s.slots| && Reaches(s.slots[slot], e) && Survives(s.slots[slot], p, cert, e)
      && (e.MigFin? ==> Fin(s.slots[slot].tuple, e.pair) in s.fins)
      && (e.Close? ==> Fin(s.slots[slot].tuple, e.pair) in s.closes)
    case Syn(slot, _, _, _, _) => slot < |s.slots| && !s.slots[slot].live && s.slots[slot].idle
    case KeyAtHost(m, _) => m in s.metas
    case HostTls(k) => k in s.table && s.table[k].tcp && s.table[k].sock.SockInit?
    case HostReady(k) => k in s.table && s.table[k].tcp && s.table[k].sock.Connected?
    case HostCloses(k) => k in s.table && s.table[k].tcp
  }

  /** handle_key_packet: a connection already in the table answers at once, whatever its socket state. */
  function KeyArrives(s: Sys, m: KeyMeta, outcome: Outcome): Sys
  {
    var k := ClientOf(m.tuple);
    if k in s.table then s.(fins := s.fins + {FinFor(s.table[k])})
    else
      match outcome
      case TcpFails => s
      case NonblockFails =>
        var c := HostConn(m, false, SockInit);
        s.(table := s.table[k := c], installs := s.installs + {c})
      case Migrated =>
        var c := HostConn(m, true, SockInit);
        s.(table := s.table[k := c], installs := s.installs + {c})
  }

  function Next(s: Sys, p: Prims, cert: bytes, ev: SysEvent): Sys
    requires Enabled(s, p, cert, ev)
  {
    match ev
    case AtNic(slot, e) =>
      var o := Step(s.slots[slot], p, cert, e);
      s.(slots := s.slots[slot := o.c], metas := if o.meta.Some? then s.metas + {o.meta.value} else s.metas)
    case Syn(slot, tuple, cookie, seqNo, len) =>
      s.(slots := s.slots[slot := Opened(s.slots[slot], s.nextInc, tuple, cookie, seqNo, len)],
         nextInc := s.nextInc + 1)
    case KeyAtHost(m, outcome) => KeyArrives(s, m, outcome)
    case HostTls(k) => s.(table := s.table[k := s.table[k].(sock := Connected)])
    case HostReady(k) =>
      s.(table := s.table[k := s.table[k].(sock := Serving)], fins := s.fins + {FinFor(s.table[k])})
    case HostCloses(k) => s.(table := s.table - {k}, closes := s.closes + {FinFor(s.table[k])})
  }

  /** All slots free and cleared, whatever their buffers and headers hold. */
  ghost predicate Init(s: Sys)
  {
    && (forall i :: 0 <= i < |s.slots| ==> s.slots[i] == Removed(s.slots[i]))
    && s.metas == {} && s.table == map[] && s.installs == {} && s.fins == {} && s.closes == {}
  }

  // ---------------------------------------------------------------- the invariant

  /** The host entered a connection for `client` with exactly `pair`. */
  ghost predicate Recorded(s: Sys, client: Client, pair: Pair)
  {
    exists i :: i in s.installs && ClientOf(i.meta.tuple) == client && i.meta.pair == pair
  }

  /** The key metas of a live connection's incarnation carry its tuple and its application keys. */
  ghost predicate OwnMetas(metas: set<KeyMeta>, c: Conn)
  {
    forall m :: m in metas && m.inc == c.inc ==>
      m.tuple == c.tuple && m.keys == c.hs.app && c.hs.step >= CERTIFICATE_VERIFY
  }

  /** The host has sent a close for this tuple. */
  ghost predicate Closed(s: Sys, tuple: Tuple)
  {
    exists f :: f in s.closes && f.tuple == tuple
  }

  ghost predicate SlotOk(s: Sys, c: Conn)
  {
    && Flags(c)
    && (c.live ==> c.inc < s.nextInc && OwnMetas(s.metas, c))
    && (c.matched.Some? ==> Recorded(s, ClientOf(c.tuple), c.matched.value))
    && (c.readyToDel ==> Closed(s, c.tuple))
  }

  ghost predicate HostOk(s: Sys)
  {
    && (forall i :: i in s.installs ==> i.meta in s.metas)
    && (forall k :: k in s.table ==>
          ClientOf(s.table[k].meta.tuple) == k && s.table[k].(sock := SockInit) in s.installs)
    && (forall f :: f in s.fins || f in s.closes ==> Recorded(s, ClientOf(f.tuple), f.pair))
  }

  ghost predicate Inv(s: Sys)
  {
    && (forall i :: 0 <= i < |s.slots| ==> SlotOk(s, s.slots[i]))
    && (forall i, j :: 0 <= i < j < |s.slots| && s.slots[i].live && s.slots[j].live ==>
          s.slots[i].inc != s.slots[j].inc)
    && (forall m :: m in s.metas ==> m.inc < s.nextInc)
    && HostOk(s)
  }

  lemma InitInv(s: Sys)
    requires Init(s)
    ensures Inv(s)
  {
    forall i | 0 <= i < |s.slots|
      ensures SlotOk(s, s.slots[i]) && !s.slots[i].live
    {
      RemovedFlags(s.slots[i]);
    }
  }

  lemma RecordedGrows(s: Sys, s': Sys, client: Client, pair: Pair)
    requires Recorded(s, client, pair) && s.installs <= s'.installs
    ensures Recorded(s', client, pair)
  {}

  // ---------------------------------------------------------------- each event keeps it

  /** The slot an event touches. */
  lemma TouchedSlot(s: Sys, p: Prims, cert: bytes, slot: nat, e: NicEvent)
    requires Inv(s) && Enabled(s, p, cert, AtNic(slot, e))
    ensures var s' := Next(s, p, cert, AtNic(slot, e)); SlotOk(s', s'.slots[slot])
  {
    var c := s.slots[slot];
    StepKeeps(c, p, cert, e);
    var s' := Next(s, p, cert, AtNic(slot, e));
    var c' := s'.slots[slot];
    if c'.matched.Some? {
      if c'.matched != c.matched {
        assert Fin(c.tuple, e.pair) in s.fins;
      }
      RecordedGrows(s, s', ClientOf(c.tuple), c'.matched.value);
    }
  }

  /** The slots it does not touch: a new key meta belongs to another incarnation. */
  lemma OtherSlot(s: Sys, p: Prims, cert: bytes, slot: nat, e: NicEvent, i: nat)
    requires Inv(s) && Enabled(s, p, cert, AtNic(slot, e)) && i < |s.slots| && i != slot
    ensures var s' := Next(s, p, cert, AtNic(slot, e)); SlotOk(s', s.slots[i])
  {
    StepKeeps(s.slots[slot], p, cert, e);
    var s' := Next(s, p, cert, AtNic(slot, e));
    var c := s.slots[i];
    if c.matched.Some? {
      RecordedGrows(s, s', ClientOf(c.tuple), c.matched.value);
    }
  }

  lemma HostUnmoved(s: Sys, s': Sys)
    requires HostOk(s) && s.metas <= s'.metas
    requires s'.installs == s.installs && s'.table == s.table && s'.fins == s.fins && s'.closes == s.closes
    ensures HostOk(s')
  {
    forall f | f in s'.fins || f in s'.closes
      ensures Recorded(s', ClientOf(f.tuple), f.pair)
    {
      RecordedGrows(s, s', ClientOf(f.tuple), f.pair);
    }
  }

  lemma NicKeeps(s: Sys, p: Prims, cert: bytes, slot: nat, e: NicEvent)
    requires Inv(s) && Enabled(s, p, cert, AtNic(slot, e))
    ensures Inv(Next(s, p, cert, AtNic(slot, e)))
  {
    var s' := Next(s, p, cert, AtNic(slot, e));
    StepKeeps(s.slots[slot], p, cert, e);
    forall i | 0 <= i < |s'.slots|
      ensures SlotOk(s', s'.slots[i])
    {
      if i == slot {
        TouchedSlot(s, p, cert, slot, e);
      } else {
        OtherSlot(s, p, cert, slot, e, i);
      }
    }
    HostUnmoved(s, s');
  }

  lemma SynKeeps(s: Sys, p: Prims, cert: bytes, ev: SysEvent)
    requires Inv(s) && ev.Syn? && Enabled(s, p, cert, ev)
    ensures Inv(Next(s, p, cert, ev))
  {
    var s' := Next(s, p, cert, ev);
    var c := s.slots[ev.slot];
    OpenedFlags(c, s.nextInc, ev.tuple, ev.cookie, ev.seqNo, ev.len);
    forall i | 0 <= i < |s'.slots|
      ensures SlotOk(s', s'.slots[i])
    {
      if i != ev.slot && s.slots[i].matched.Some? {
        RecordedGrows(s, s', ClientOf(s.slots[i].tuple), s.slots[i].matched.value);
      }
    }
    HostUnmoved(s, s');
  }

  /** The host's table and fins change; the NIC is untouched. */
  lemma SlotsUnmoved(s: Sys, s': Sys)
    requires Inv(s) && HostOk(s')
    requires s'.slots == s.slots && s'.nextInc == s.nextInc && s'.metas == s.metas && s.installs <= s'.installs
    requires s.closes <= s'.closes
    ensures Inv(s')
  {
    forall i | 0 <= i < |s'.slots|
      ensures SlotOk(s', s'.slots[i])
    {
      if s.slots[i].matched.Some? {
        RecordedGrows(s, s', ClientOf(s.slots[i].tuple), s.slots[i].matched.value);
      }
    }
  }

  lemma FinRecorded(s: Sys, k: Client)
    requires HostOk(s) && k in s.table
    ensures Recorded(s, ClientOf(FinFor(s.table[k]).tuple), FinFor(s.table[k]).pair)
  {
    var c := s.table[k].(sock := SockInit);
    assert c in s.installs;
  }

  /** Adding the answer for a connection in the table. */
  lemma AnswerKeeps(s: Sys, k: Client)
    requires HostOk(s) && k in s.table
    ensures HostOk(s.(fins := s.fins + {FinFor(s.table[k])}))
  {
    FinRecorded(s, k);
    var s' := s.(fins := s.fins + {FinFor(s.table[k])});
    forall f | f in s'.fins || f in s'.closes
      ensures Recorded(s', ClientOf(f.tuple), f.pair)
    {
      RecordedGrows(s, s', ClientOf(f.tuple), f.pair);
    }
  }

  /** Entering a new connection. */
  lemma EntryKeeps(s: Sys, m: KeyMeta, tcp: bool)
    requires HostOk(s) && m in s.metas
    ensures var c := HostConn(m, tcp, SockInit);
            HostOk(s.(table := s.table[ClientOf(m.tuple) := c], installs := s.installs + {c}))
  {
    var c := HostConn(m, tcp, SockInit);
    var s' := s.(table := s.table[ClientOf(m.tuple) := c], installs := s.installs + {c});
    forall f | f in s'.fins || f in s'.closes
      ensures Recorded(s', ClientOf(f.tuple), f.pair)
    {
      RecordedGrows(s, s', ClientOf(f.tuple), f.pair);
    }
  }

  /** Moving a connection's socket on. */
  lemma SocketKeeps(s: Sys, k: Client, sock: SockState)
    requires HostOk(s) && k in s.table
    ensures HostOk(s.(table := s.table[k := s.table[k].(sock := sock)]))
  {
    var s' := s.(table := s.table[k := s.table[k].(sock := sock)]);
    assert s.table[k].(sock := SockInit) == s.table[k].(sock := sock).(sock := SockInit);
    forall f | f in s'.fins || f in s'.closes
      ensures Recorded(s', ClientOf(f.tuple), f.pair)
    {
      RecordedGrows(s, s', ClientOf(f.tuple), f.pair);
    }
  }

  lemma CloseKeeps(s: Sys, k: Client)
    requires HostOk(s) && k in s.table
    ensures HostOk(s.(table := s.table - {k}, closes := s.closes + {FinFor(s.table[k])}))
  {
    FinRecorded(s, k);
    var s' := s.(table := s.table - {k}, closes := s.closes + {FinFor(s.table[k])});
    forall f | f in s'.fins || f in s'.closes
      ensures Recorded(s', ClientOf(f.tuple), f.pair)
    {
      RecordedGrows(s, s', ClientOf(f.tuple), f.pair);
    }
  }

  lemma KeyKeeps(s: Sys, m: KeyMeta, outcome: Outcome)
    requires HostOk(s) && m in s.metas
    ensures HostOk(KeyArrives(s, m, outcome))
  {
    if ClientOf(m.tuple) in s.table {
      AnswerKeeps(s, ClientOf(m.tuple));
    } else {
      EntryKeeps(s, m, outcome == Migrated);
    }
  }

  lemma HostKeeps(s: Sys, p: Prims, cert: bytes, ev: SysEvent)
    requires Inv(s) && Enabled(s, p, cert, ev) && !ev.AtNic? && !ev.Syn?
    ensures Inv(Next(s, p, cert, ev))
  {
    match ev
    case KeyAtHost(m, outcome) => KeyKeeps(s, m, outcome);
    case HostTls(k) => SocketKeeps(s, k, Connected);
    case HostReady(k) =>
      AnswerKeeps(s, k);
      SocketKeeps(s.(fins := s.fins + {FinFor(s.table[k])}), k, Serving);
    case HostCloses(k) => CloseKeeps(s, k);
    SlotsUnmoved(s, Next(s, p, cert, ev));
  }

  // ---------------------------------------------------------------- whole runs

  ghost predicate Steps(s: Sys, p: Prims, cert: bytes, ev: SysEvent, s': Sys)
  {
    Enabled(s, p, cert, ev) && s' == Next(s, p, cert, ev)
  }

  ghost predicate Run(run: seq<Sys>, events: seq<SysEvent>, p: Prims, cert: bytes)
  {
    && |run| == |events| + 1
    && Init(run[0])
    && forall i :: 0 <= i < |events| ==> Steps(run[i], p, cert, events[i], run[i + 1])
  }

  lemma {:induction false} RunInv(run: seq<Sys>, events: seq<SysEvent>, p: Prims, cert: bytes, i: nat)
    requires Run(run, events, p, cert) && i < |run|
    ensures Inv(run[i])
    decreases i
  {
    if i == 0 {
      InitInv(run[0]);
    } else {
      RunInv(run, events, p, cert, i - 1);
      var ev := events[i - 1];
      assert Steps(run[i - 1], p, cert, ev, run[i - 1 + 1]);
      match ev
      case AtNic(slot, e) => NicKeeps(run[i - 1], p, cert, slot, e);
      case Syn(_, _, _, _, _) => SynKeeps(run[i - 1], p, cert, ev);
      case _ => HostKeeps(run[i - 1], p, cert, ev);
    }
  }

  /** No other incarnation has sent a key meta for this client with the pair that matched. */
  ghost predicate Fresh(s: Sys, c: Conn)
    requires c.matched.Some?
  {
    forall m :: m in s.metas && ClientOf(m.tuple) == ClientOf(c.tuple) && m.pair == c.matched.value ==> m.inc == c.inc
  }

  /** Event `j` is the key meta that entered `installed`; its own outcome decides the TCP side. */
  ghost predicate EnteredAt(run: seq<Sys>, events: seq<SysEvent>, installed: HostConn, j: nat)
    requires |run| == |events| + 1
  {
    && j < |events| && events[j].KeyAtHost? && events[j].m == installed.meta
    && ClientOf(installed.meta.tuple) !in run[j].table
    && events[j].outcome != TcpFails && (installed.tcp <==> events[j].outcome == Migrated)
  }

  /** Every host connection was entered by one key meta's arrival. */
  lemma {:induction false} InstallHasCause(run: seq<Sys>, events: seq<SysEvent>, p: Prims, cert: bytes, i: nat,
                                           installed: HostConn)
    returns (j: nat)
    requires Run(run, events, p, cert) && i < |run| && installed in run[i].installs
    ensures j < i && EnteredAt(run, events, installed, j)
    decreases i
  {
    assert i > 0;
    assert Steps(run[i - 1], p, cert, events[i - 1], run[i - 1 + 1]);
    if installed !in run[i - 1].installs {
      assert events[i - 1].KeyAtHost?;
      j := i - 1;
    } else {
      j := InstallHasCause(run, events, p, cert, i - 1, installed);
    }
  }

  /** In every run, a released server flight implies that the host has entered a connection for that
      client with exactly the seq/ack pair the NIC's meta header held when the mig-fin matched; its TCP
      side was installed exactly when the arrival that entered it went through; and when the pair is fresh
      it holds this connection's tuple and application keys. */
  lemma ReleasedOnlyAfterInstall(run: seq<Sys>, events: seq<SysEvent>, p: Prims, cert: bytes, i: nat, slot: nat)
    returns (installed: HostConn, j: nat)
    requires Run(run, events, p, cert) && i < |run| && slot < |run[i].slots|
    requires run[i].slots[slot].hs.released
    ensures var s := run[i]; var c := s.slots[slot];
            && c.live && c.recvMigFin && c.matched.Some?
            && installed in s.installs && installed.meta in s.metas
            && ClientOf(installed.meta.tuple) == ClientOf(c.tuple) && installed.meta.pair == c.matched.value
            && j < i && EnteredAt(run, events, installed, j)
            && (Fresh(s, c) ==> installed.meta.keys == c.hs.app && installed.meta.tuple == c.tuple)
  {
    RunInv(run, events, p, cert, i);
    var s := run[i];
    var c := s.slots[slot];
    assert SlotOk(s, c);
    installed :| installed in s.installs && ClientOf(installed.meta.tuple) == ClientOf(c.tuple)
                 && installed.meta.pair == c.matched.value;
    j := InstallHasCause(run, events, p, cert, i, installed);
  }

  /** A second key meta for the same client is answered at once unless mig_tcp_conn failed on the first;
      the answer stands for an installed TCP connection exactly when the first migration went through. */
  lemma DuplicateKeyMeta(s: Sys, m: KeyMeta, first: Outcome, second: Outcome)
    requires ClientOf(m.tuple) !in s.table
    ensures var k := ClientOf(m.tuple);
            var s1 := KeyArrives(s, m, first);
            var s2 := KeyArrives(s1, m, second);
            && (k in s1.table <==> first != TcpFails)
            && (k in s1.table ==> FinFor(s1.table[k]) in s2.fins && s1.table[k].meta == m
                                  && (s1.table[k].tcp <==> first == Migrated))
  {}

  /** In every reachable state, with slots cleared and reused in between and whatever clients send, steering
      applied implies the flags of the whole handoff, and buffered application data goes to the host only
      then. */
  lemma AppDataOnlyAfterHandoff(run: seq<Sys>, events: seq<SysEvent>, p: Prims, cert: bytes, i: nat, slot: nat,
                                e: NicEvent)
    requires Run(run, events, p, cert) && i < |run| && slot < |run[i].slots|
    ensures var c := run[i].slots[slot];
            && (c.hwsApplied ==>
                  && c.hwsInserted && c.recvMigFin && c.hs.state.Active? && c.onload
                  && c.matched.Some? && Recorded(run[i], ClientOf(c.tuple), c.matched.value)
                  && c.hs.accepted == Some(Fit(c.hs.vd, 48)))
            && (Step(c, p, cert, e).toHost.Some? ==> c.hwsApplied)
  {
    RunInv(run, events, p, cert, i);
    var c := run[i].slots[slot];
    assert SlotOk(run[i], c);
  }

  // ---------------------------------------------------------------- orderly clients

  /** No ChangeCipherSpec and no protected record arrives before the flight is out, and PKA results answer
      requests. */
  predicate Orderly(s: Sys, ev: SysEvent)
  {
    ev.AtNic? && ev.slot < |s.slots| && TlsEvent(s.slots[ev.slot], ev.e).Some? ==>
      Session.Enabled(s.slots[ev.slot].hs, TlsEvent(s.slots[ev.slot], ev.e).value)
  }

  lemma StepSound(c: Conn, p: Prims, cert: bytes, e: NicEvent)
    requires Sound(p) && HandshakeProofs.Inv(c.hs, p, cert) && Survives(c, p, cert, e)
    requires TlsEvent(c, e).Some? ==> Session.Enabled(c.hs, TlsEvent(c, e).value)
    ensures HandshakeProofs.Inv(Step(c, p, cert, e).c.hs, p, cert)
  {
    var t := TlsEvent(c, e);
    if t.Some? {
      Session.EventKeeps(c.hs, p, cert, t.value);
      AfterTlsSession(c, Session.Apply(c.hs, p, cert, t.value));
    } else {
      HandshakeProofs.InitInv(c.hs.serverRecords, p, cert);
      OtherEvents(c, p, cert, e);
    }
  }

  /** Events outside the session leave it alone or clear it. */
  lemma OtherEvents(c: Conn, p: Prims, cert: bytes, e: NicEvent)
    requires TlsEvent(c, e).None?
    ensures Step(c, p, cert, e).c.hs == c.hs || Step(c, p, cert, e).c.hs == Cleared(c.hs.serverRecords)
  {
    match e
    case Segment(seqNo, ackNo, len, packet) =>
      assert Step(c, p, cert, e).c == Arrived(c, seqNo, ackNo, len, packet);
      ArrivedKeeps(c, seqNo, ackNo, len, packet);
    case Ack(ackNo, len, packet) => assert PureAck(c, ackNo, len, packet).hs == c.hs;
    case Incomplete => assert Acked(c).hs == c.hs;
    case Drop => assert Removed(c).hs == Cleared(c.hs.serverRecords);
    case _ => FlagEvents(c, p, cert, e);
  }

  lemma ArrivedKeeps(c: Conn, seqNo: u32, ackNo: u32, len: u16, packet: bytes)
    ensures Arrived(c, seqNo, ackNo, len, packet).hs == c.hs
  {}

  lemma FlagEvents(c: Conn, p: Prims, cert: bytes, e: NicEvent)
    requires e.Apply? || e.Remove? || e.Forward? || e.MigFin? || e.Close?
    ensures Step(c, p, cert, e).c.hs == c.hs || Step(c, p, cert, e).c.hs == Cleared(c.hs.serverRecords)
  {
    match e
    case Apply => assert Step(c, p, cert, e).c == ApplyHws(c);
    case Remove => assert Step(c, p, cert, e).c == RemoveHws(c);
    case Forward => assert Step(c, p, cert, e) == ForwardAppData(c);
    case MigFin(pair) => assert Step(c, p, cert, e) == HostMigFin(c, pair);
    case Close(pair) => assert Step(c, p, cert, e) == HostClose(c, pair);
  }

  lemma AfterTlsSession(c: Conn, o: Out)
    ensures AfterTls(c, o).c.hs == Session.After(c.hs, o)
  {}

  /** From state `j` to state `i` what reached this slot was orderly; nothing is said of other slots. */
  ghost predicate OrderlyAt(run: seq<Sys>, events: seq<SysEvent>, slot: nat, j: nat, i: nat)
    requires |run| == |events| + 1 && i < |run|
  {
    forall k :: j <= k < i && events[k].AtNic? && events[k].slot == slot ==> Orderly(run[k], events[k])
  }

  /** The slot's session is a cleared one, as at the start and after every removal. */
  predicate ClearedAt(s: Sys, slot: nat)
  {
    slot < |s.slots| && s.slots[slot].hs == Cleared(s.slots[slot].hs.serverRecords)
  }

  lemma InitCleared(s: Sys, slot: nat)
    requires Init(s) && slot < |s.slots|
    ensures s.slots[slot] == Removed(s.slots[slot]) && ClearedAt(s, slot)
  {
    assert s.slots[slot] == Removed(s.slots[slot]);
  }

  lemma StartCleared(run: seq<Sys>, events: seq<SysEvent>, p: Prims, cert: bytes, slot: nat)
    requires Run(run, events, p, cert) && slot < |run[0].slots|
    ensures ClearedAt(run[0], slot)
  {
    InitCleared(run[0], slot);
  }

  lemma {:induction false} SameSlots(run: seq<Sys>, events: seq<SysEvent>, p: Prims, cert: bytes, i: nat)
    requires Run(run, events, p, cert) && i < |run|
    ensures |run[i].slots| == |run[0].slots|
    decreases i
  {
    if i > 0 {
      SameSlots(run, events, p, cert, i - 1);
      assert Steps(run[i - 1], p, cert, events[i - 1], run[i - 1 + 1]);
    }
  }

  lemma {:induction false} OrderlyInv(run: seq<Sys>, events: seq<SysEvent>, p: Prims, cert: bytes, j: nat, i: nat,
                                      slot: nat)
    requires Sound(p) && Run(run, events, p, cert) && j <= i < |run|
    requires ClearedAt(run[j], slot) && OrderlyAt(run, events, slot, j, i)
    ensures slot < |run[i].slots| && HandshakeProofs.Inv(run[i].slots[slot].hs, p, cert)
    decreases i
  {
    if i == j {
      HandshakeProofs.InitInv(run[j].slots[slot].hs.serverRecords, p, cert);
    } else {
      var k: nat := i - 1;
      OrderlyInv(run, events, p, cert, j, k, slot);
      var s, ev := run[k], events[k];
      assert Steps(s, p, cert, ev, run[k + 1]);
      if ev.AtNic? && ev.slot == slot {
        StepSound(s.slots[slot], p, cert, ev.e);
      }
    }
  }

  /** Steering applied means a verified handshake when what reached this slot since its session was last cleared
      was orderly, whatever clients do at other slots and did at this one before: the flight went out, and the
      client's Finished was the MAC over all six messages under the client handshake secret. */
  lemma HandoffVerified(run: seq<Sys>, events: seq<SysEvent>, p: Prims, cert: bytes, j: nat, i: nat, slot: nat)
    requires Sound(p) && Run(run, events, p, cert) && j <= i < |run| && slot < |run[i].slots|
    requires (j == 0 || ClearedAt(run[j], slot)) && OrderlyAt(run, events, slot, j, i)
    ensures var c := run[i].slots[slot];
            c.hwsApplied ==>
              && c.hs.released && |c.hs.msgs| == 6
              && c.hs.accepted == Some(FinishedMac(p, c.hs.keys.clientSecret, Flatten(c.hs.msgs)))
              && c.matched.Some? && Recorded(run[i], ClientOf(c.tuple), c.matched.value)
  {
    RunInv(run, events, p, cert, i);
    var c := run[i].slots[slot];
    assert SlotOk(run[i], c);
    if j == 0 {
      SameSlots(run, events, p, cert, i);
      StartCleared(run, events, p, cert, slot);
    }
    OrderlyInv(run, events, p, cert, j, i, slot);
    HandshakeProofs.UptoAll(c.hs.msgs);
  }
}
