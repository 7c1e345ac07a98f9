/** What the host gets of the packets that reach an onloaded connection. The NIC has room for one packet per slot, so
    the host gets the last one that came before the sweep, once, and only from a steered connection. */
module Forwarding {
  import opened Bytes
  import opened Tls
  import opened Handshake
  import Session
  import opened SeqNum
  import opened Nic
  import opened NicProofs
  import opened Migration

  /** The packet an event brings to an onloaded connection: any segment, and any ACK but the one that ends the TCP
      handshake. */
  function Brings(c: Conn, e: NicEvent): Option<bytes>
  {
    if !c.onload then None
    else
      match e
      case Segment(_, _, _, packet) => Some(packet)
      case Ack(ackNo, len, packet) => if ackNo == Wrap32(c.cookie + 1) && len == 0 then None else Some(packet)
      case _ => None
  }

  /** Event `i` is one at this slot. */
  predicate HappensAt(run: seq<Sys>, events: seq<SysEvent>, slot: nat, i: nat)
    requires |run| == |events| + 1 && i < |events|
  {
    events[i].AtNic? && events[i].slot == slot && slot < |run[i].slots| && slot < |run[i + 1].slots|
  }

  /** The history of a slot: the last packet brought to it that no sweep has forwarded and no removal has dropped. */
  function Unsent(run: seq<Sys>, events: seq<SysEvent>, slot: nat, i: nat): bytes
    requires |run| == |events| + 1 && i < |run|
    decreases i
  {
    if i == 0 then []
    else if !HappensAt(run, events, slot, i - 1) then Unsent(run, events, slot, i - 1)
    else
      var c, e := run[i - 1].slots[slot], events[i - 1].e;
      if Brings(c, e).Some? then Brings(c, e).value
      else if !run[i].slots[slot].live || (e.Forward? && c.hwsApplied) then []
      else Unsent(run, events, slot, i - 1)
  }

  // ---------------------------------------------------------------- one event

  lemma TlsPending(c: Conn, o: Out)
    ensures var out := AfterTls(c, o);
            && out.toHost == None
            && out.c.pending == (if o.verdict == Abort then [] else c.pending)
            && (o.verdict != Abort ==> out.c.live == c.live)
            && (o.verdict == Abort ==> !out.c.live)
  {}

  lemma ArrivedPending(c: Conn, seqNo: u32, ackNo: u32, len: u16, packet: bytes)
    ensures var c' := Arrived(c, seqNo, ackNo, len, packet);
            c'.live == c.live && c'.pending == if c.onload then packet else c.pending
  {}

  /** What an event makes of the buffer, and what it hands to the host. */
  ghost predicate Buffers(c: Conn, e: NicEvent, o: NicOut)
  {
    && o.c.pending == (if Brings(c, e).Some? then Brings(c, e).value
                       else if !o.c.live || (e.Forward? && c.hwsApplied) then [] else c.pending)
    && o.toHost == (if e.Forward? && c.hwsApplied && c.pending != [] then Some(c.pending) else None)
  }

  lemma StepBuffers(c: Conn, p: Prims, cert: bytes, e: NicEvent)
    requires Reaches(c, e) && (!c.live ==> c.pending == [])
    ensures Buffers(c, e, Step(c, p, cert, e))
  {
    var t := TlsEvent(c, e);
    if t.Some? {
      TlsPending(c, Session.Apply(c.hs, p, cert, t.value));
    } else {
      match e
      case Segment(seqNo, ackNo, len, packet) => ArrivedPending(c, seqNo, ackNo, len, packet);
      case Ack(ackNo, len, packet) => assert Step(c, p, cert, e) == Silent(PureAck(c, ackNo, len, packet));
      case Incomplete => assert Step(c, p, cert, e) == Silent(Acked(c));
      case _ => FlagBuffers(c, p, cert, e);
    }
  }

  lemma FlagBuffers(c: Conn, p: Prims, cert: bytes, e: NicEvent)
    requires c.live && (e.Apply? || e.Remove? || e.Forward? || e.MigFin? || e.Close? || e.Drop?)
    ensures Buffers(c, e, Step(c, p, cert, e))
  {
    match e
    case Apply => assert Step(c, p, cert, e) == Silent(ApplyHws(c));
    case Remove => assert Step(c, p, cert, e) == Silent(RemoveHws(c));
    case Forward => assert Step(c, p, cert, e) == ForwardAppData(c);
    case MigFin(pair) => assert Step(c, p, cert, e) == HostMigFin(c, pair);
    case Close(pair) => assert Step(c, p, cert, e) == HostClose(c, pair);
    case Drop => assert Step(c, p, cert, e) == Silent(Removed(c));
  }

  // ---------------------------------------------------------------- whole runs

  /** In every state of every run a slot holds exactly the packet of its history, and a free slot holds none. */
  lemma {:induction false} BufferIsUnsent(run: seq<Sys>, events: seq<SysEvent>, p: Prims, cert: bytes,
                                          slot: nat, i: nat)
    requires Run(run, events, p, cert) && i < |run| && slot < |run[0].slots|
    ensures slot < |run[i].slots| && run[i].slots[slot].pending == Unsent(run, events, slot, i)
    ensures !run[i].slots[slot].live ==> run[i].slots[slot].pending == []
    decreases i
  {
    if i == 0 {
      InitCleared(run[0], slot);
    } else {
      var k: nat := i - 1;
      BufferIsUnsent(run, events, p, cert, slot, k);
      assert Steps(run[k], p, cert, events[k], run[k + 1]);
      SystemBuffers(run[k], p, cert, events[k], run[k + 1], slot);
    }
  }

  lemma SystemBuffers(s: Sys, p: Prims, cert: bytes, ev: SysEvent, s': Sys, slot: nat)
    requires Steps(s, p, cert, ev, s') && slot < |s.slots| && (!s.slots[slot].live ==> s.slots[slot].pending == [])
    ensures slot < |s'.slots| && (!s'.slots[slot].live ==> s'.slots[slot].pending == [])
    ensures var c, c' := s.slots[slot], s'.slots[slot];
            c'.pending == if !(ev.AtNic? && ev.slot == slot) then c.pending
                          else if Brings(c, ev.e).Some? then Brings(c, ev.e).value
                          else if !c'.live || (ev.e.Forward? && c.hwsApplied) then [] else c.pending
  {
    if ev.AtNic? && ev.slot == slot {
      StepBuffers(s.slots[slot], p, cert, ev.e);
      if Brings(s.slots[slot], ev.e).Some? {
        BroughtStays(s.slots[slot], p, cert, ev.e);
      }
    }
  }

  lemma BroughtStays(c: Conn, p: Prims, cert: bytes, e: NicEvent)
    requires Reaches(c, e) && Brings(c, e).Some?
    ensures Step(c, p, cert, e).c.live
  {
    if e.Segment? {
      ArrivedPending(c, e.seqNo, e.ackNo, e.len, e.packet);
    }
  }

  /** In every run the host gets something from a slot exactly when a sweep finds it steered with a packet unsent, and
      then it gets that packet. */
  lemma ForwardedExactly(run: seq<Sys>, events: seq<SysEvent>, p: Prims, cert: bytes, slot: nat, i: nat)
    requires Run(run, events, p, cert) && i < |events| && slot < |run[0].slots|
    requires events[i].AtNic? && events[i].slot == slot
    ensures slot < |run[i].slots|
    ensures var c, e := run[i].slots[slot], events[i].e; var unsent := Unsent(run, events, slot, i);
            Step(c, p, cert, e).toHost == if e.Forward? && c.hwsApplied && unsent != [] then Some(unsent) else None
  {
    BufferIsUnsent(run, events, p, cert, slot, i);
    assert Steps(run[i], p, cert, events[i], run[i + 1]);
    StepBuffers(run[i].slots[slot], p, cert, events[i].e);
  }

  /** Event `k` brings nothing to the slot, forwards nothing from it and leaves it in use. */
  predicate QuietAt(run: seq<Sys>, events: seq<SysEvent>, slot: nat, k: nat)
    requires |run| == |events| + 1 && k < |events|
  {
    HappensAt(run, events, slot, k) ==>
      var c, e := run[k].slots[slot], events[k].e;
      Brings(c, e) == None && run[k + 1].slots[slot].live && !(e.Forward? && c.hwsApplied)
  }

  ghost predicate QuietBetween(run: seq<Sys>, events: seq<SysEvent>, slot: nat, j: nat, i: nat)
    requires |run| == |events| + 1 && i < |run|
  {
    forall k :: j <= k < i ==> QuietAt(run, events, slot, k)
  }

  /** Event `j` brings a packet to the slot, and up to state `i` nothing replaces, forwards or drops it. */
  ghost predicate Source(run: seq<Sys>, events: seq<SysEvent>, slot: nat, j: nat, i: nat)
    requires |run| == |events| + 1 && i < |run|
  {
    && j < i && HappensAt(run, events, slot, j) && Brings(run[j].slots[slot], events[j].e).Some?
    && QuietBetween(run, events, slot, j + 1, i)
  }

  /** Every packet that is unsent, and so every packet the host gets, came by one event to the onloaded connection, and
      since then none came, none was forwarded and the connection stayed: none is forwarded twice, and none of another
      connection. */
  lemma {:induction false} UnsentHasSource(run: seq<Sys>, events: seq<SysEvent>, slot: nat, i: nat) returns (j: nat)
    requires |run| == |events| + 1 && i < |run| && Unsent(run, events, slot, i) != []
    ensures Source(run, events, slot, j, i)
    ensures Brings(run[j].slots[slot], events[j].e) == Some(Unsent(run, events, slot, i))
    decreases i
  {
    var k: nat := i - 1;
    if HappensAt(run, events, slot, k) && Brings(run[k].slots[slot], events[k].e).Some? {
      j := k;
    } else {
      j := UnsentHasSource(run, events, slot, k);
      assert run[k + 1] == run[i] && QuietAt(run, events, slot, k);
    }
  }

  /** And a packet is unsent as long as nothing replaces, forwards or drops it: it reaches the host exactly if a sweep
      finds the connection steered before that happens. */
  lemma {:induction false} SourceIsUnsent(run: seq<Sys>, events: seq<SysEvent>, slot: nat, j: nat, i: nat)
    requires |run| == |events| + 1 && i < |run| && Source(run, events, slot, j, i)
    ensures Some(Unsent(run, events, slot, i)) == Brings(run[j].slots[slot], events[j].e)
    decreases i
  {
    var k: nat := i - 1;
    assert run[k + 1] == run[i];
    if j < k {
      assert QuietAt(run, events, slot, k);
      SourceIsUnsent(run, events, slot, j, k);
    }
  }

  /** The NIC keeps one packet per connection: of two that come before a sweep the host gets only the second. */
  lemma SecondReplacesFirst(c: Conn, p: Prims, cert: bytes, first: NicEvent, second: NicEvent)
    requires c.live && c.onload && c.hwsApplied && Brings(c, first).Some? && Brings(c, second).Some?
    ensures var c1 := Step(c, p, cert, first).c; var c2 := Step(c1, p, cert, second).c;
            c2.pending == Brings(c, second).value
            && Step(c2, p, cert, Forward).toHost == if c2.pending == [] then None else Some(Brings(c, second).value)
  {
    BroughtKeeps(c, p, cert, first);
    var c1 := Step(c, p, cert, first).c;
    BroughtKeeps(c1, p, cert, second);
  }

  lemma BroughtKeeps(c: Conn, p: Prims, cert: bytes, e: NicEvent)
    requires c.live && Brings(c, e).Some?
    ensures Step(c, p, cert, e) == Silent(c.(pending := Brings(c, e).value))
  {
    if e.Segment? {
      AcceptsOnlyNextOrRepeat(c, e.seqNo, e.ackNo, e.len, e.packet);
    }
  }
}
