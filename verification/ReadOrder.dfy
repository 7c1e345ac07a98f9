/** The order in which a session takes the records that had to wait. */
module ReadOrder {
  import opened Bytes
  import opened Tls
  import opened Handshake
  import opened HandshakeProofs
  import opened Session
  import Completion

  /** A record taken from the queue is handled as if it had just arrived. */
  lemma DrainIsArrival(h: Hs, p: Prims)
    requires h.recvQ != [] && !h.waiting
    ensures ReadQueue(h, p) == Arrive(h.(recvQ := h.recvQ[1..]), p, h.recvQ[0])
  {}

  /** The event ends the session that had the queue. */
  predicate Ends(h: Hs, p: Prims, cert: bytes, e: Event)
  {
    e.Recycle? || Apply(h, p, cert, e).verdict == Abort
  }

  /** The records that came while a request was outstanding, since the session was last cleared. */
  function Kept(run: seq<Hs>, events: seq<Event>, p: Prims, cert: bytes, i: nat): seq<Rec>
    requires |run| == |events| + 1 && i < |run|
    decreases i
  {
    if i == 0 then []
    else
      var h, e := run[i - 1], events[i - 1];
      if Ends(h, p, cert, e) then []
      else Kept(run, events, p, cert, i - 1) + if e.Packet? && h.waiting then [e.r] else []
  }

  /** How many of them the turns of process_session_read have taken. */
  function TakenCount(run: seq<Hs>, events: seq<Event>, p: Prims, cert: bytes, i: nat): nat
    requires |run| == |events| + 1 && i < |run|
    decreases i
  {
    if i == 0 then 0
    else
      var h, e := run[i - 1], events[i - 1];
      if Ends(h, p, cert, e) then 0
      else TakenCount(run, events, p, cert, i - 1) + if e.Drain? && h.recvQ != [] && !h.waiting then 1 else 0
  }

  lemma FlushKeepsQueue(h: Hs, p: Prims, cert: bytes, fin: bool)
    ensures SendRemain(h, p, cert, fin).h.recvQ == h.recvQ
  {
    var o := SendRemain(h, p, cert, fin);
    if h.step == SERVER_HELLO && h.keyCalc {
      Completion.CertificatesKeepHello(h, p, cert);
      assert o.h == h || Some(o.h) == SendCertificates(h, p, cert);
    } else if h.step == CERTIFICATE && h.signed {
      Completion.FinishKeepsHello(h, p);
      assert o.h == h || Some(o.h) == SendVerifyAndFinished(h, p);
    } else {
      assert o.h == h || o.h == Release(h);
    }
  }

  lemma ResumeKeepsQueue(h: Hs, p: Prims, cert: bytes, random: b32)
    requires Inv(h, p, cert) && GetProcessed(h, p, random).verdict == Continue
    ensures GetProcessed(h, p, random).h.recvQ == h.recvQ
  {
    if !h.completed {
      assert GetProcessed(h, p, random) == Quiet(h);
    } else if h.step == HELLO_REQUEST {
      HelloKeeps(h, p, cert, random);
      GreetedEffect(h, p, cert, random);
    } else if h.step == SERVER_HELLO {
      assert GetProcessed(h, p, random).h == ClearFlags(AfterSharedSecret(h.(pendingOp := None), p));
    } else {
      assert GetProcessed(h, p, random).h == ClearFlags(AfterSignature(h.(pendingOp := None)));
    }
  }

  lemma ArriveQueue(h: Hs, p: Prims, r: Rec)
    ensures Arrive(h, p, r).h.recvQ == if h.waiting then h.recvQ + [r] else h.recvQ
  {
    if h.waiting {
      assert Arrive(h, p, r) == Quiet(h.(recvQ := h.recvQ + [r]));
    } else {
      Completion.ReadFrame(h, p, r);
    }
  }

  lemma DrainQueue(h: Hs, p: Prims)
    ensures ReadQueue(h, p).h.recvQ == if h.recvQ != [] && !h.waiting then h.recvQ[1..] else h.recvQ
  {
    if h.recvQ != [] && !h.waiting {
      Completion.ReadFrame(h.(recvQ := h.recvQ[1..]), p, h.recvQ[0]);
    }
  }

  /** What an event makes of the queue. */
  lemma QueueStep(h: Hs, p: Prims, cert: bytes, e: Event)
    requires Inv(h, p, cert) && Apply(h, p, cert, e).verdict != Exit
    ensures var q := After(h, Apply(h, p, cert, e)).recvQ;
            q == if Ends(h, p, cert, e) then []
                 else if e.Packet? && h.waiting then h.recvQ + [e.r]
                 else if e.Drain? && h.recvQ != [] && !h.waiting then h.recvQ[1..]
                 else h.recvQ
  {
    match e
    case Packet(r) => ArriveQueue(h, p, r);
    case Drain => DrainQueue(h, p);
    case Flush(fin) => FlushKeepsQueue(h, p, cert, fin);
    case Resumption(random) =>
      ResumptionKeeps(h, p, cert, random);
      ResumeKeepsQueue(h, p, cert, random);
    case _ =>
  }

  /** In every run the queue holds exactly the records kept and not yet taken, in the order they came: they are taken
      first come, first served, each once, and none is lost while the session lasts. */
  lemma {:induction false} QueueInOrder(run: seq<Hs>, events: seq<Event>, p: Prims, cert: bytes, i: nat)
    requires Sound(p) && Run(run, events, p, cert) && i < |run|
    ensures var kept, n := Kept(run, events, p, cert, i), TakenCount(run, events, p, cert, i);
            n <= |kept| && run[i].recvQ == kept[n..]
    decreases i
  {
    if i > 0 {
      var k: nat := i - 1;
      QueueInOrder(run, events, p, cert, k);
      RunQueue(run, events, p, cert, k);
    }
  }

  lemma RunQueue(run: seq<Hs>, events: seq<Event>, p: Prims, cert: bytes, k: nat)
    requires Sound(p) && Run(run, events, p, cert) && k < |events|
    ensures var h, e := run[k], events[k];
            run[k + 1].recvQ == if Ends(h, p, cert, e) then []
                                else if e.Packet? && h.waiting then h.recvQ + [e.r]
                                else if e.Drain? && h.recvQ != [] && !h.waiting then h.recvQ[1..]
                                else h.recvQ
  {
    RunInv(run, events, p, cert, k);
    assert Steps(run[k], events[k], run[k + 1], p, cert);
    QueueStep(run[k], p, cert, events[k]);
  }
}
