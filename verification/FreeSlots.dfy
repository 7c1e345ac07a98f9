/** The records of one payload at one slot. The loop of process_new_record takes no notice of what a record
    did, so records that follow one whose processing aborted the session are read on a slot that is already
    in the free queue. */
module FreeSlots {
  import opened Bytes
  import opened Tls
  import opened Handshake
  import Session
  import opened Nic
  import opened NicProofs
  import opened Migration

  /** Records that leave a cleared session as it is: ClientHellos the code does not start on, handshake and
      alert records it passes over, application data that does not end like a handshake message. */
  predicate Harmless(r: Rec)
  {
    match r
    case HelloRec(ch) => !ch.supported
    case HandshakeRec(t) => !Unexpected(t)
    case CcsRec => false
    case AlertRec(level, description) => level != 2 && description != 0
    case DataRec(_, body) => body == [] || body[|body| - 1] != HANDSHAKE
  }

  /** A slot after some records, and how often abort_session put it into the free queue. */
  datatype Reading = Reading(c: Conn, removals: nat)

  function TakeRecord(c: Conn, p: Prims, cert: bytes, r: Rec): Reading
  {
    Reading(Step(c, p, cert, Record(r)).c, if Arrive(c.hs, p, r).verdict == Abort then 1 else 0)
  }

  function Fold(take: (Conn, Rec) -> Reading, c: Conn, rs: seq<Rec>): Reading
    decreases |rs|
  {
    if rs == [] then Reading(c, 0)
    else
      var first := take(c, rs[0]);
      var rest := Fold(take, first.c, rs[1..]);
      Reading(rest.c, first.removals + rest.removals)
  }

  function Feed(c: Conn, p: Prims, cert: bytes, rs: seq<Rec>): Reading
  {
    Fold((c, r) => TakeRecord(c, p, cert, r), c, rs)
  }

  /** A payload: complete records, and possibly the beginning of another, which is answered with an ACK. */
  function Payload(c: Conn, p: Prims, cert: bytes, rs: seq<Rec>, cut: bool): Reading
  {
    var r := Feed(c, p, cert, rs);
    if cut then r.(c := Acked(r.c)) else r
  }

  /** In the state remove_session leaves. */
  predicate Clear(c: Conn)
  {
    c == Removed(c)
  }

  // ---------------------------------------------------------------- one record at a cleared slot

  /** Something started that nothing but another removal undoes. */
  predicate Dirty(h: Hs)
  {
    h.step != HELLO_REQUEST || h.held.Some?
  }

  lemma ClearReads(c: Conn, p: Prims, r: Rec)
    requires Clear(c)
    ensures var o := Arrive(c.hs, p, r);
            && o.verdict != Exit
            && (Harmless(r) ==> o == Quiet(c.hs))
            && (!Harmless(r) && o.verdict == Continue ==> Dirty(o.h))
  {
    var h := c.hs;
    assert Arrive(h, p, r) == ProcessRead(h, p, r);
    if r.DataRec? {
      assert ProcessRead(h, p, r) == HandleInner(h, r.body);
      if !Harmless(r) {
        assert HandleInner(h, r.body) == HandleFinished(h, (r.body + Zeros(52))[4..52]);
      }
    }
  }

  lemma DirtyInner(h: Hs, content: bytes)
    requires Dirty(h)
    ensures Dirty(HandleInner(h, content).h)
  {
    if content != [] && content[|content| - 1] == HANDSHAKE {
      assert HandleInner(h, content) == HandleFinished(h, (content + Zeros(52))[4..52]);
    } else {
      assert HandleInner(h, content) == Quiet(h);
    }
  }

  lemma DirtyData(h: Hs, p: Prims, r: Rec)
    requires Dirty(h) && r.DataRec?
    ensures Dirty(ProcessRead(h, p, r).h)
  {
    var o := ProcessRead(h, p, r);
    var clear := p.open(h.keys.clientKey, Nonce(Fit(h.keys.clientIv, 12), 0), r.header, r.body);
    if !h.readGcm {
      DirtyInner(h, r.body);
      assert o == HandleInner(h, r.body);
    } else if h.state.Active? || clear.None? {
      assert o == Quiet(h);
    } else {
      DirtyInner(h, clear.value);
      assert o == HandleInner(h, clear.value);
    }
  }

  lemma DirtyStays(h: Hs, p: Prims, r: Rec)
    requires Dirty(h)
    ensures Dirty(Arrive(h, p, r).h)
  {
    var o := Arrive(h, p, r);
    if h.waiting {
      assert o == Quiet(h.(recvQ := h.recvQ + [r]));
    } else if r.DataRec? {
      DirtyData(h, p, r);
    } else if r.CcsRec? {
      assert o == Quiet(h) || o == HandleCcs(h);
    } else if r.HelloRec? && h.step < CLIENT_HELLO && r.ch.supported {
      assert o == GenerateKeyPair(h, r.ch);
    } else {
      assert o.h == h;
    }
  }

  // ---------------------------------------------------------------- whole payloads

  lemma RecordStep(c: Conn, p: Prims, cert: bytes, r: Rec)
    ensures var o := Arrive(c.hs, p, r);
            var c' := Step(c, p, cert, Record(r)).c;
            if o.verdict == Abort then Clear(c')
            else c'.hs == o.h && (o == Quiet(c.hs) && Clear(c) ==> c' == c)
  {
    assert TlsEvent(c, Record(r)) == Some(Session.Packet(r));
    assert Step(c, p, cert, Record(r)) == AfterTls(c, Arrive(c.hs, p, r));
  }

  lemma {:induction false} DirtyFeeds(c: Conn, p: Prims, cert: bytes, rs: seq<Rec>)
    requires Dirty(c.hs)
    ensures var r := Feed(c, p, cert, rs); r.removals > 0 || Dirty(r.c.hs)
    decreases |rs|
  {
    if rs != [] {
      RecordStep(c, p, cert, rs[0]);
      DirtyStays(c.hs, p, rs[0]);
      if Arrive(c.hs, p, rs[0]).verdict != Abort {
        DirtyFeeds(Step(c, p, cert, Record(rs[0])).c, p, cert, rs[1..]);
      }
    }
  }

  predicate AllHarmless(rs: seq<Rec>)
  {
    forall j :: 0 <= j < |rs| ==> Harmless(rs[j])
  }

  lemma {:induction false} ClearFeeds(c: Conn, p: Prims, cert: bytes, rs: seq<Rec>)
    requires Clear(c)
    ensures var r := Feed(c, p, cert, rs); r.removals == 0 && Clear(r.c) <==> AllHarmless(rs)
    decreases |rs|
  {
    if rs != [] {
      var c1 := Step(c, p, cert, Record(rs[0])).c;
      ClearReads(c, p, rs[0]);
      RecordStep(c, p, cert, rs[0]);
      assert AllHarmless(rs) <==> Harmless(rs[0]) && AllHarmless(rs[1..]) by {
        assert rs == [rs[0]] + rs[1..];
      }
      if Harmless(rs[0]) {
        ClearFeeds(c1, p, cert, rs[1..]);
      } else if Arrive(c.hs, p, rs[0]).verdict != Abort {
        DirtyFeeds(c1, p, cert, rs[1..]);
      }
    }
  }

  lemma {:induction false} FoldConcat(take: (Conn, Rec) -> Reading, c: Conn, a: seq<Rec>, b: seq<Rec>)
    ensures var first := Fold(take, c, a);
            var second := Fold(take, first.c, b);
            Fold(take, c, a + b) == Reading(second.c, first.removals + second.removals)
    decreases |a|
  {
    if a == [] {
      assert a + b == b;
    } else {
      FoldConcat(take, take(c, a[0]).c, a[1..], b);
      assert (a + b)[0] == a[0] && (a + b)[1..] == a[1..] + b;
    }
  }

  lemma FeedConcat(c: Conn, p: Prims, cert: bytes, a: seq<Rec>, b: seq<Rec>)
    ensures var first := Feed(c, p, cert, a);
            var second := Feed(first.c, p, cert, b);
            Feed(c, p, cert, a + b) == Reading(second.c, first.removals + second.removals)
  {
    FoldConcat((c, r) => TakeRecord(c, p, cert, r), c, a, b);
  }

  /** Record `k` is the first of the payload whose processing aborts the session. */
  predicate FirstAbort(c: Conn, p: Prims, cert: bytes, rs: seq<Rec>, k: nat)
  {
    k < |rs| && Feed(c, p, cert, rs[..k]).removals == 0 && Feed(c, p, cert, rs[..k + 1]).removals == 1
  }

  lemma AbortClears(c: Conn, p: Prims, cert: bytes, rs: seq<Rec>, k: nat)
    requires FirstAbort(c, p, cert, rs, k)
    ensures Clear(Feed(c, p, cert, rs[..k + 1]).c)
  {
    assert rs[..k + 1] == rs[..k] + [rs[k]];
    FeedConcat(c, p, cert, rs[..k], [rs[k]]);
    var c1 := Feed(c, p, cert, rs[..k]).c;
    var c2 := Step(c1, p, cert, Record(rs[k])).c;
    assert Feed(c2, p, cert, []) == Reading(c2, 0);
    assert [rs[k]][1..] == [];
    RecordStep(c1, p, cert, rs[k]);
  }

  /** A payload that aborts its session leaves a cleared slot that was put into the free queue once exactly when
      every record behind the one that aborted is harmless and no unfinished record follows. */
  lemma PayloadIff(c: Conn, p: Prims, cert: bytes, rs: seq<Rec>, k: nat, cut: bool)
    requires FirstAbort(c, p, cert, rs, k)
    ensures var r := Payload(c, p, cert, rs, cut);
            r.removals == 1 && Clear(r.c) <==> !cut && AllHarmless(rs[k + 1..])
  {
    var front, back := rs[..k + 1], rs[k + 1..];
    assert rs == front + back;
    FeedConcat(c, p, cert, front, back);
    AbortClears(c, p, cert, rs, k);
    ClearFeeds(Feed(c, p, cert, front).c, p, cert, back);
  }

  /** From the first abort on the slot has been put into the free queue at least once. */
  lemma AbortCounts(c: Conn, p: Prims, cert: bytes, rs: seq<Rec>, k: nat, cut: bool)
    requires FirstAbort(c, p, cert, rs, k)
    ensures Payload(c, p, cert, rs, cut).removals >= 1
  {
    assert rs == rs[..k + 1] + rs[k + 1..];
    FeedConcat(c, p, cert, rs[..k + 1], rs[k + 1..]);
  }

  /** The session reads in the clear and nothing is outstanding. */
  predicate Listening(c: Conn)
  {
    c.live && !c.hs.waiting && !c.hs.readGcm
  }

  const FATAL: Rec := AlertRec(2, 40)

  lemma FatalAborts(c: Conn, p: Prims, cert: bytes)
    requires !c.hs.waiting && !c.hs.readGcm
    ensures Arrive(c.hs, p, FATAL).verdict == Abort && Step(c, p, cert, Record(FATAL)) == Silent(Removed(c))
  {
    assert Arrive(c.hs, p, FATAL) == Quiet(c.hs).(verdict := Abort);
  }

  /** The slot after a fatal alert and a ChangeCipherSpec. */
  function Tainted(c: Conn): Conn
  {
    var free := Removed(c);
    free.(hs := free.hs.(step := CLIENT_CIPHER_SPEC))
  }

  lemma CcsTaints(c: Conn, p: Prims, cert: bytes)
    ensures Step(Removed(c), p, cert, Record(CcsRec)) == Silent(Tainted(c))
  {
    var h := Removed(c).hs;
    assert Arrive(h, p, CcsRec) == HandleCcs(h) == Quiet(h.(step := CLIENT_CIPHER_SPEC));
  }

  /** A fatal alert and a ChangeCipherSpec in one payload free the slot once but leave handshake_state at
      CLIENT_CIPHER_SPEC. Whoever gets the slot next has its ClientHello passed over as a retransmission, and
      Session.DerailedForever says that no flight will leave. */
  lemma CcsAfterAlert(c: Conn, p: Prims, cert: bytes, ch: ClientHello,
                      inc: nat, tuple: Tuple, cookie: u32, seqNo: u32, len: u16)
    requires Listening(c)
    ensures var r := Payload(c, p, cert, [FATAL, CcsRec], false);
            var next := Opened(r.c, inc, tuple, cookie, seqNo, len);
            && r == Reading(Tainted(c), 1) && !r.c.live && r.c.idle && !Clear(r.c)
            && Session.Derailed(next.hs) && Step(next, p, cert, Record(HelloRec(ch))) == Silent(next)
  {
    FatalAborts(c, p, cert);
    CcsTaints(c, p, cert);
    var t := Tainted(c);
    assert Feed(t, p, cert, []) == Reading(t, 0);
    assert [FATAL, CcsRec][1..] == [CcsRec] && [CcsRec][1..] == [];
    assert Arrive(Removed(c).hs, p, CcsRec).verdict == Continue;
    assert Feed(Removed(c), p, cert, [CcsRec]) == Reading(t, 0);
    var next := Opened(t, inc, tuple, cookie, seqNo, len);
    assert Arrive(next.hs, p, HelloRec(ch)) == Quiet(next.hs);
  }

  /** Two fatal alerts in one payload put the slot into the free queue twice. */
  lemma TwoAlerts(c: Conn, p: Prims, cert: bytes)
    requires Listening(c)
    ensures Payload(c, p, cert, [FATAL, FATAL], false) == Reading(Removed(c), 2)
  {
    FatalAborts(c, p, cert);
    FatalAborts(Removed(c), p, cert);
    assert Feed(Removed(c), p, cert, []) == Reading(Removed(c), 0);
    assert [FATAL, FATAL][1..] == [FATAL] && [FATAL][1..] == [];
    assert Feed(Removed(c), p, cert, [FATAL]) == Reading(Removed(c), 1);
  }

  // ---------------------------------------------------------------- slots of the whole system

  /** The slot is in use or in the state remove_session leaves. */
  predicate LiveOrClear(s: Sys, slot: nat)
  {
    slot < |s.slots| && (s.slots[slot].live || Clear(s.slots[slot]))
  }

  /** If the event reaches this slot while it is free, it is a harmless record. */
  predicate Tidy(s: Sys, ev: SysEvent, slot: nat)
  {
    ev.AtNic? && ev.slot == slot && slot < |s.slots| && !s.slots[slot].live ==> ev.e.Record? && Harmless(ev.e.r)
  }

  /** Every way out of the active table clears the slot. */
  lemma LeavingClears(c: Conn, p: Prims, cert: bytes, e: NicEvent)
    requires c.live
    ensures Step(c, p, cert, e).c.live || Clear(Step(c, p, cert, e).c)
  {
    var t := TlsEvent(c, e);
    if t.Some? {
      var o := Session.Apply(c.hs, p, cert, t.value);
      assert Step(c, p, cert, e) == AfterTls(c, o);
      AfterTlsClears(c, o);
    } else if e.Segment? {
      assert Step(c, p, cert, e).c == Arrived(c, e.seqNo, e.ackNo, e.len, e.packet);
      ArrivedStays(c, e.seqNo, e.ackNo, e.len, e.packet);
    } else {
      OtherClears(c, p, cert, e);
    }
  }

  lemma ArrivedStays(c: Conn, seqNo: u32, ackNo: u32, len: u16, packet: bytes)
    ensures Arrived(c, seqNo, ackNo, len, packet).live == c.live
  {}

  lemma OtherClears(c: Conn, p: Prims, cert: bytes, e: NicEvent)
    requires c.live && TlsEvent(c, e).None? && !e.Segment?
    ensures Step(c, p, cert, e).c.live || Clear(Step(c, p, cert, e).c)
  {
    match e
    case Ack(ackNo, len, packet) => assert Step(c, p, cert, e).c == PureAck(c, ackNo, len, packet);
    case Incomplete => assert Step(c, p, cert, e).c == Acked(c);
    case Apply => assert Step(c, p, cert, e).c == ApplyHws(c);
    case Remove => assert Step(c, p, cert, e).c == RemoveHws(c);
    case Forward => assert Step(c, p, cert, e) == ForwardAppData(c);
    case MigFin(pair) => assert Step(c, p, cert, e) == HostMigFin(c, pair);
    case Close(pair) => assert Step(c, p, cert, e) == HostClose(c, pair);
    case Drop => assert Step(c, p, cert, e).c == Removed(c);
  }

  lemma AfterTlsClears(c: Conn, o: Out)
    requires c.live
    ensures AfterTls(c, o).c.live || Clear(AfterTls(c, o).c)
  {}

  lemma TidyStep(s: Sys, p: Prims, cert: bytes, ev: SysEvent, slot: nat)
    requires Enabled(s, p, cert, ev) && LiveOrClear(s, slot) && Tidy(s, ev, slot)
    ensures LiveOrClear(Next(s, p, cert, ev), slot)
  {
    if ev.AtNic? && ev.slot == slot {
      var c := s.slots[slot];
      if c.live {
        LeavingClears(c, p, cert, ev.e);
      } else {
        ClearReads(c, p, ev.e.r);
        RecordStep(c, p, cert, ev.e.r);
      }
    }
  }

  /** Between two states of a run a slot that is free is a cleared one as long as only harmless records reach it
      while it is free. */
  lemma {:induction false} FreeIsClear(run: seq<Sys>, events: seq<SysEvent>, p: Prims, cert: bytes, j: nat, i: nat,
                                       slot: nat)
    requires Run(run, events, p, cert) && j <= i < |run| && LiveOrClear(run[j], slot)
    requires forall k :: j <= k < i ==> Tidy(run[k], events[k], slot)
    ensures LiveOrClear(run[i], slot)
    decreases i
  {
    if j < i {
      var k: nat := i - 1;
      FreeIsClear(run, events, p, cert, j, k, slot);
      assert Steps(run[k], p, cert, events[k], run[k + 1]);
      TidyStep(run[k], p, cert, events[k], slot);
    }
  }
}
