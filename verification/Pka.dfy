/** The asynchronous crypto pipeline: worker cores submit public-key requests on their rings, core 0 moves
    them into the hardware and posts the results, workers resume by handshake_state. A ring is the view of
    it that `RingMachine` proves exact, in which the producer may see the head late; the hardware is a bag.
    get_processed_crypto is two steps, because core 0 can post a result between its handler and the
    clearing of the flags. */
module Pka {
  import opened Bytes
  import opened Tls
  import opened Handshake
  import opened HandshakeProofs
  import opened Session
  import opened RingMachine
  import opened Jobs
  import Der

  const MAX_OUTSTANDING: nat := 64

  /** `resuming` is the session between its handler and the clearing of its flags. `stamps` holds, for each
      session, how many dequeues core 0 had made when it last released the session's completed_crypto. */
  datatype Core = Core(sessions: seq<Hs>, ring: View<Job>, cnt: int, resuming: Option<nat>, stamps: seq<nat>)

  /** `overflow` records whether a submission ever found its ring full. */
  datatype Pipe = Pipe(cores: seq<Core>, hw: seq<Job>, overflow: bool)

  /** `at` is the head position a submission reads, `sync` the one that acquiring completed_crypto brings. */
  datatype PkaEvent =
    | Worker(core: nat, sid: nat, e: Event, at: nat)
    | Begin(core: nat, sid: nat, random: b32, sync: nat, at: nat) // get_processed_crypto up to its handler
    | Finish(core: nat)                                           // the clearing of the flags
    | Dequeue(core: nat)                                          // one turn of handle_submitted_pka's loop
    | Complete(k: nat, result: (Der.Operand, Der.Operand))        // one turn of handle_completed_pka's loop

  /** Resumption and results are events of their own. The removal of a session with a request outstanding is
      not covered. */
  predicate MayRun(h: Hs, p: Prims, cert: bytes, e: Event)
  {
    && !e.Result? && !e.Resumption? && Session.Enabled(h, e) && Apply(h, p, cert, e).verdict != Exit
    && (e.Recycle? || Apply(h, p, cert, e).verdict == Abort ==> h.pendingOp.None?)
  }

  predicate CanStep(s: Pipe, p: Prims, cert: bytes, ev: PkaEvent)
  {
    match ev
    case Worker(c, sid, e, at) =>
      && c < |s.cores| && sid < |s.cores[c].sessions| && s.cores[c].resuming == None
      && MayRun(s.cores[c].sessions[sid], p, cert, e)
      && s.cores[c].ring.seen <= at <= s.cores[c].ring.popped
    case Begin(c, sid, random, sync, at) =>
      && c < |s.cores| && sid < |s.cores[c].sessions| && s.cores[c].resuming == None
      && s.cores[c].sessions[sid].completed && Resume(s.cores[c].sessions[sid], p, random).verdict == Continue
      && sid < |s.cores[c].stamps| && s.cores[c].stamps[sid] <= sync
      && s.cores[c].ring.seen <= sync <= at <= s.cores[c].ring.popped
    case Finish(c) => c < |s.cores| && s.cores[c].resuming.Some? && s.cores[c].resuming.value < |s.cores[c].sessions|
    case Dequeue(c) =>
      c < |s.cores| && s.cores[c].cnt < MAX_OUTSTANDING && s.cores[c].ring.popped < |s.cores[c].ring.log|
    case Complete(k, _) =>
      && k < |s.hw| && s.hw[k].core < |s.cores|
      && s.hw[k].sid < |s.cores[s.hw[k].core].sessions| && s.hw[k].sid < |s.cores[s.hw[k].core].stamps|
  }

  /** sj_ring_enqueue */
  function Enqueued(v: View<Job>, job: Option<Job>, at: nat, ringSize: nat): View<Job>
  {
    if job.None? then v
    else v.(seen := at, log := if Refuses(v, at, ringSize) then v.log else v.log + [job.value])
  }

  function JobFor(c: nat, sid: nat, submit: Option<Opcode>): Option<Job>
  {
    if submit.None? then None else Some(Job(c, sid, submit.value))
  }

  function WorkerStep(s: Pipe, ringSize: nat, c: nat, sid: nat, h': Hs, submit: Option<Opcode>, sync: nat, at: nat,
                      resuming: Option<nat>): Pipe
    requires c < |s.cores| && sid < |s.cores[c].sessions|
  {
    var core := s.cores[c];
    var ring := core.ring.(seen := sync);
    s.(cores := s.cores[c := core.(sessions := core.sessions[sid := h'], resuming := resuming,
                                   ring := Enqueued(ring, JobFor(c, sid, submit), at, ringSize))],
       overflow := s.overflow || (submit.Some? && Refuses(ring, at, ringSize)))
  }

  function FinishStep(s: Pipe, c: nat): Pipe
    requires c < |s.cores| && s.cores[c].resuming.Some? && s.cores[c].resuming.value < |s.cores[c].sessions|
  {
    var core := s.cores[c];
    var sid := core.resuming.value;
    s.(cores := s.cores[c := core.(sessions := core.sessions[sid := ClearFlags(core.sessions[sid])], resuming := None)])
  }

  function DequeueStep(s: Pipe, c: nat): Pipe
    requires c < |s.cores| && s.cores[c].ring.popped < |s.cores[c].ring.log|
  {
    var core := s.cores[c];
    s.(cores := s.cores[c := core.(ring := core.ring.(popped := core.ring.popped + 1), cnt := core.cnt + 1)],
       hw := s.hw + [core.ring.log[core.ring.popped]])
  }

  function CompleteStep(s: Pipe, k: nat, result: (Der.Operand, Der.Operand)): Pipe
    requires k < |s.hw| && s.hw[k].core < |s.cores|
    requires s.hw[k].sid < |s.cores[s.hw[k].core].sessions| && s.hw[k].sid < |s.cores[s.hw[k].core].stamps|
  {
    var j := s.hw[k];
    var core := s.cores[j.core];
    s.(hw := Without(s.hw, k),
       cores := s.cores[j.core := core.(sessions := core.sessions[j.sid := PostResult(core.sessions[j.sid], result)],
                                        cnt := core.cnt - 1, stamps := core.stamps[j.sid := core.ring.popped])])
  }

  function Step(s: Pipe, p: Prims, cert: bytes, ringSize: nat, ev: PkaEvent): Pipe
    requires CanStep(s, p, cert, ev)
  {
    match ev
    case Worker(c, sid, e, at) =>
      var o := Apply(s.cores[c].sessions[sid], p, cert, e);
      WorkerStep(s, ringSize, c, sid, After(s.cores[c].sessions[sid], o), o.submit, s.cores[c].ring.seen, at, None)
    case Begin(c, sid, random, sync, at) =>
      var o := Resume(s.cores[c].sessions[sid], p, random);
      WorkerStep(s, ringSize, c, sid, o.h, o.submit, sync, at, Some(sid))
    case Finish(c) => FinishStep(s, c)
    case Dequeue(c) => DequeueStep(s, c)
    case Complete(k, result) => CompleteStep(s, k, result)
  }

  // ---------------------------------------------------------------- one request per session

  /** The session as it will be once its flags are cleared. */
  function At(core: Core, sid: nat): Hs
    requires sid < |core.sessions|
  {
    if core.resuming == Some(sid) then ClearFlags(core.sessions[sid]) else core.sessions[sid]
  }

  /** The request a session has in the ring or in the hardware. */
  function Ticket(h: Hs): Option<Opcode>
  {
    if h.completed then None else h.pendingOp
  }

  /** Submitting takes an idle session's request from none to the new one; nothing else changes it. */
  ghost predicate Moves(h: Hs, h': Hs, submit: Option<Opcode>)
  {
    if submit.Some? then h.pendingOp == None && h'.pendingOp == submit && !h'.completed
    else h'.pendingOp == h.pendingOp && h'.completed == h.completed
  }

  lemma ReadMoves(h: Hs, p: Prims, cert: bytes, o: Out)
    requires HandshakeProofs.Inv(h, p, cert) && ReadOutcome(h, p, cert, o)
    requires o.verdict == Abort ==> h.pendingOp.None?
    ensures Moves(h, After(h, o), o.submit)
  {}

  lemma WorkerMoves(h: Hs, p: Prims, cert: bytes, e: Event)
    requires Sound(p) && HandshakeProofs.Inv(h, p, cert) && MayRun(h, p, cert, e)
    ensures var o := Apply(h, p, cert, e); Moves(h, After(h, o), o.submit) && HandshakeProofs.Inv(After(h, o), p, cert)
  {
    var o := Apply(h, p, cert, e);
    EventKeeps(h, p, cert, e);
    if e.Packet? || e.Drain? {
      ReadEventKeeps(h, p, cert, e);
      ReadMoves(h, p, cert, o);
    } else if e.Flush? {
      FlushKeeps(h, p, cert, e.recvMigFin);
    } else if e.Recycle? {
      assert h.pendingOp.None? && o.submit == None;
    } else {
      assert o == Quiet(h);
    }
  }

  /** The handler of a completed request leaves only the next one. */
  lemma BeginMoves(h: Hs, p: Prims, cert: bytes, random: b32)
    requires HandshakeProofs.Inv(h, p, cert) && h.completed && Resume(h, p, random).verdict == Continue
    ensures var o := Resume(h, p, random);
            o.h.pendingOp == o.submit && HandshakeProofs.Inv(ClearFlags(o.h), p, cert)
  {
    ResumptionKeeps(h, p, cert, random);
  }

  // ---------------------------------------------------------------- the pipeline invariant

  /** Enqueued and not yet dequeued. */
  function Waiting(core: Core): seq<Job>
  {
    if core.ring.popped <= |core.ring.log| then core.ring.log[core.ring.popped..] else []
  }

  /** The job belongs to an existing session that holds its ticket. */
  ghost predicate Backed(s: Pipe, j: Job)
  {
    j.core < |s.cores| && j.sid < |s.cores[j.core].sessions| && Ticket(At(s.cores[j.core], j.sid)) == Some(j.op)
  }

  /** Everything core `c` has submitted that is not answered: ring first, then hardware. */
  function Outstanding(s: Pipe, c: nat): seq<Job>
    requires c < |s.cores|
  {
    Waiting(s.cores[c]) + s.hw
  }

  ghost predicate CoreOk(s: Pipe, c: nat)
    requires c < |s.cores|
  {
    var ring := Waiting(s.cores[c]);
    && (forall i :: 0 <= i < |ring| ==> ring[i].core == c && Backed(s, ring[i]))
    && Distinct(Outstanding(s, c))
    && s.cores[c].cnt == CountOf(s.hw, c) && s.cores[c].cnt <= MAX_OUTSTANDING
  }

  ghost predicate Located(s: Pipe, c: nat, sid: nat)
    requires c < |s.cores|
  {
    exists j :: j in Outstanding(s, c) && j.core == c && j.sid == sid
  }

  ghost predicate QueueInv(s: Pipe)
  {
    && (forall c :: 0 <= c < |s.cores| ==> CoreOk(s, c))
    && (forall i :: 0 <= i < |s.hw| ==> Backed(s, s.hw[i]))
  }

  ghost predicate SessionsInv(s: Pipe, p: Prims, cert: bytes)
  {
    forall c, sid :: 0 <= c < |s.cores| && 0 <= sid < |s.cores[c].sessions| ==>
      HandshakeProofs.Inv(At(s.cores[c], sid), p, cert)
  }

  // ---------------------------------------------------------------- room in the ring

  /** Behind the head the producer has seen there is at most one job per session, and only of sessions that
      have not taken their answer yet; the head released with an answer is past all jobs of its session. */
  ghost predicate RingOk(core: Core)
  {
    var v := core.ring;
    && v.seen <= v.popped <= |v.log| && |core.stamps| == |core.sessions|
    && (core.resuming.Some? ==> core.resuming.value < |core.sessions|)
    && (forall i :: v.seen <= i < |v.log| ==>
          v.log[i].sid < |core.sessions| && core.sessions[v.log[i].sid].pendingOp.Some?)
    && (forall i, k :: v.seen <= i < k < |v.log| ==> v.log[i].sid != v.log[k].sid)
    && (forall sid :: 0 <= sid < |core.sessions| && core.sessions[sid].completed && core.resuming != Some(sid) ==>
          core.stamps[sid] <= v.popped && Past(v, core.stamps[sid], sid))
  }

  /** No job of `sid` at position `from` or behind. */
  ghost predicate Past(v: View<Job>, from: nat, sid: nat)
  {
    forall i :: from <= i < |v.log| ==> v.log[i].sid != sid
  }

  ghost predicate RingsInv(s: Pipe, ringSize: nat)
  {
    && !s.overflow
    && forall c :: 0 <= c < |s.cores| ==> RingOk(s.cores[c]) && |s.cores[c].sessions| + 1 <= ringSize
  }

  /** Whatever head it reads, a session none of whose jobs lies behind it finds room. */
  lemma RingHasRoom(v: View<Job>, n: nat, ringSize: nat, sid: nat, at: nat)
    requires n + 1 <= ringSize && sid < n && at <= |v.log| && Past(v, at, sid)
    requires forall i :: at <= i < |v.log| ==> v.log[i].sid < n
    requires forall i, k :: at <= i < k < |v.log| ==> v.log[i].sid != v.log[k].sid
    ensures !Refuses(v, at, ringSize)
  {
    var m := |v.log| - at;
    var xs := seq(m, i requires 0 <= i < m => v.log[at + i].sid) + [sid];
    forall i, k | 0 <= i < k < |xs|
      ensures xs[i] != xs[k]
    {}
    Pigeonhole(xs, n);
  }

  lemma WorkerRing(core: Core, ringSize: nat, c: nat, sid: nat, h': Hs, submit: Option<Opcode>, sync: nat, at: nat,
                   resuming: Option<nat>)
    requires RingOk(core) && |core.sessions| + 1 <= ringSize && WorkerCase(core, sid, h', submit, sync, at, resuming)
    ensures var ring := core.ring.(seen := sync);
            && (submit.Some? ==> !Refuses(ring, at, ringSize))
            && RingOk(core.(sessions := core.sessions[sid := h'], resuming := resuming,
                            ring := Enqueued(ring, JobFor(c, sid, submit), at, ringSize)))
  {
    var v := core.ring;
    var ring := v.(seen := sync);
    assert resuming.Some? ==> Past(v, core.stamps[sid], sid);
    if submit.Some? {
      assert Past(ring, at, sid);
      RingHasRoom(ring, |core.sessions|, ringSize, sid, at);
    }
    var core' := core.(sessions := core.sessions[sid := h'], resuming := resuming,
                       ring := Enqueued(ring, JobFor(c, sid, submit), at, ringSize));
    forall d | 0 <= d < |core'.sessions| && core'.sessions[d].completed && core'.resuming != Some(d)
      ensures core'.stamps[d] <= core'.ring.popped && Past(core'.ring, core'.stamps[d], d)
    {
      assert core.sessions[d].completed;
      assert Past(v, core.stamps[d], d);
    }
  }

  // ---------------------------------------------------------------- each event keeps the queues in order

  /** The worker of core `c` moves session `sid` on, and perhaps enqueues its job. */
  lemma WorkerQueue(s: Pipe, s': Pipe, c: nat, sid: nat, submit: Option<Opcode>)
    requires QueueInv(s) && c < |s.cores| && sid < |s.cores[c].sessions|
             && s.cores[c].ring.popped <= |s.cores[c].ring.log|
    requires Replaced(s, s', c, sid, submit)
    ensures QueueInv(s')
  {
    forall j: Job | Backed(s, j)
      ensures Backed(s', j)
    {
      BackedStays(s, s', c, sid, submit, j);
    }
    forall d | 0 <= d < |s'.cores|
      ensures CoreOk(s', d)
    {
      assert CoreOk(s, d);
      if d == c {
        WorkerCore(s, s', c, sid, submit);
      } else {
        assert Outstanding(s', d) == Outstanding(s, d);
      }
    }
  }

  /** `s'` differs from `s` in one session and its job only. */
  ghost predicate Replaced(s: Pipe, s': Pipe, c: nat, sid: nat, submit: Option<Opcode>)
    requires c < |s.cores| && sid < |s.cores[c].sessions|
  {
    && |s'.cores| == |s.cores| && s'.hw == s.hw
    && (forall d :: 0 <= d < |s.cores| && d != c ==> s'.cores[d] == s.cores[d])
    && |s'.cores[c].sessions| == |s.cores[c].sessions| && s'.cores[c].cnt == s.cores[c].cnt
    && (forall d :: 0 <= d < |s.cores[c].sessions| && d != sid ==> At(s'.cores[c], d) == At(s.cores[c], d))
    && Waiting(s'.cores[c]) == Waiting(s.cores[c]) + (if submit.Some? then [Job(c, sid, submit.value)] else [])
    && (if submit.Some?
        then Ticket(At(s.cores[c], sid)) == None && Ticket(At(s'.cores[c], sid)) == submit
        else Ticket(At(s'.cores[c], sid)) == Ticket(At(s.cores[c], sid)))
  }

  lemma BackedStays(s: Pipe, s': Pipe, c: nat, sid: nat, submit: Option<Opcode>, j: Job)
    requires c < |s.cores| && sid < |s.cores[c].sessions| && Replaced(s, s', c, sid, submit) && Backed(s, j)
    ensures Backed(s', j)
  {
    if j.core == c && j.sid != sid {
      assert At(s'.cores[c], j.sid) == At(s.cores[c], j.sid);
    }
  }

  /** The core the worker runs on. */
  lemma WorkerCore(s: Pipe, s': Pipe, c: nat, sid: nat, submit: Option<Opcode>)
    requires QueueInv(s) && c < |s.cores| && sid < |s.cores[c].sessions| && Replaced(s, s', c, sid, submit)
    requires forall j: Job :: Backed(s, j) ==> Backed(s', j)
    ensures CoreOk(s', c)
  {
    assert CoreOk(s, c);
    var ring, ring' := Waiting(s.cores[c]), Waiting(s'.cores[c]);
    if submit.Some? {
      var j := Job(c, sid, submit.value);
      assert forall i :: 0 <= i < |ring| ==> Backed(s, ring[i]);
      Appended(ring, s.hw, j);
      assert ring' == ring + [j];
    } else {
      assert ring' == ring;
      assert Outstanding(s', c) == Outstanding(s, c);
    }
    forall i | 0 <= i < |ring'|
      ensures ring'[i].core == c && Backed(s', ring'[i])
    {
      if i < |ring| {
        assert Backed(s, ring[i]);
      }
    }
  }

  lemma DequeueQueue(s: Pipe, c: nat)
    requires QueueInv(s) && c < |s.cores| && s.cores[c].cnt < MAX_OUTSTANDING
             && s.cores[c].ring.popped < |s.cores[c].ring.log|
    ensures QueueInv(DequeueStep(s, c))
  {
    var s' := DequeueStep(s, c);
    assert CoreOk(s, c) && Backed(s, Waiting(s.cores[c])[0]);
    forall i: Job | Backed(s, i)
      ensures Backed(s', i)
    {}
    forall d | 0 <= d < |s'.cores|
      ensures CoreOk(s', d)
    {
      DequeueCore(s, c, d);
    }
  }

  lemma DequeueCore(s: Pipe, c: nat, d: nat)
    requires QueueInv(s) && c < |s.cores| && s.cores[c].cnt < MAX_OUTSTANDING
             && s.cores[c].ring.popped < |s.cores[c].ring.log|
    requires d < |s.cores|
    ensures CoreOk(DequeueStep(s, c), d)
  {
    var s' := DequeueStep(s, c);
    var ring := Waiting(s.cores[c]);
    var j := ring[0];
    assert CoreOk(s, c) && CoreOk(s, d);
    CountSplit(s.hw, [j], d);
    CountOne(j, d);
    if d == c {
      Rotated(ring, s.hw);
      assert Waiting(s'.cores[c]) == ring[1..] && ring == [j] + ring[1..];
    } else {
      assert Outstanding(s', d) == Outstanding(s, d) + [j];
      Extended(Waiting(s.cores[d]), s.hw, j, d, ring);
    }
  }

  lemma CompleteQueue(s: Pipe, k: nat, result: (Der.Operand, Der.Operand))
    requires QueueInv(s) && CanComplete(s, k)
    ensures QueueInv(CompleteStep(s, k, result))
  {
    var s' := CompleteStep(s, k, result);
    OthersBacked(s, k, result);
    HwDiffers(s, k);
    forall d | 0 <= d < |s'.cores|
      ensures CoreOk(s', d)
    {
      CompleteCore(s, k, result, d);
    }
  }

  predicate CanComplete(s: Pipe, k: nat)
  {
    && k < |s.hw| && s.hw[k].core < |s.cores|
    && s.hw[k].sid < |s.cores[s.hw[k].core].sessions| && s.hw[k].sid < |s.cores[s.hw[k].core].stamps|
  }

  lemma OthersBacked(s: Pipe, k: nat, result: (Der.Operand, Der.Operand))
    requires CanComplete(s, k)
    ensures forall i: Job :: Backed(s, i) && !SameSession(i, s.hw[k]) ==> Backed(CompleteStep(s, k, result), i)
  {}

  lemma CompleteCore(s: Pipe, k: nat, result: (Der.Operand, Der.Operand), d: nat)
    requires QueueInv(s) && CanComplete(s, k) && d < |s.cores|
    ensures CoreOk(CompleteStep(s, k, result), d)
  {
    var s' := CompleteStep(s, k, result);
    assert CoreOk(s, d);
    assert Waiting(s'.cores[d]) == Waiting(s.cores[d]);
    OthersBacked(s, k, result);
    CountWithout(s.hw, k, d);
    Dropped(Waiting(s.cores[d]), s.hw, k);
    RingDiffers(s, d, k);
  }

  /** A job in the hardware is of another session than every other job there. */
  lemma HwDiffers(s: Pipe, k: nat)
    requires k < |s.hw| && s.hw[k].core < |s.cores| && CoreOk(s, s.hw[k].core)
    ensures forall i :: 0 <= i < |Without(s.hw, k)| ==>
              Without(s.hw, k)[i] in s.hw && !SameSession(Without(s.hw, k)[i], s.hw[k])
  {
    var c := s.hw[k].core;
    var n, all := |Waiting(s.cores[c])|, Outstanding(s, c);
    forall i | 0 <= i < |Without(s.hw, k)|
      ensures Without(s.hw, k)[i] in s.hw && !SameSession(Without(s.hw, k)[i], s.hw[k])
    {
      var i' := if i < k then i else i + 1;
      assert Without(s.hw, k)[i] == s.hw[i'] == all[n + i'] && s.hw[k] == all[n + k];
    }
  }

  lemma RingDiffers(s: Pipe, d: nat, k: nat)
    requires k < |s.hw| && d < |s.cores| && CoreOk(s, d)
    ensures forall i :: 0 <= i < |Waiting(s.cores[d])| ==> !SameSession(Waiting(s.cores[d])[i], s.hw[k])
  {
    var ring, all := Waiting(s.cores[d]), Outstanding(s, d);
    forall i | 0 <= i < |ring|
      ensures !SameSession(ring[i], s.hw[k])
    {
      assert all[i] == ring[i] && all[|ring| + k] == s.hw[k];
    }
  }

  // ---------------------------------------------------------------- each event keeps everything

  ghost predicate PipeInv(s: Pipe, p: Prims, cert: bytes, ringSize: nat)
  {
    QueueInv(s) && SessionsInv(s, p, cert) && RingsInv(s, ringSize)
  }

  /** The session's old and new state, before and behind a worker step of either kind. */
  ghost predicate WorkerCase(core: Core, sid: nat, h': Hs, submit: Option<Opcode>, sync: nat, at: nat,
                             resuming: Option<nat>)
  {
    && sid < |core.sessions| && |core.stamps| == |core.sessions| && core.resuming == None
    && core.ring.seen <= sync <= at <= core.ring.popped <= |core.ring.log|
    && (resuming == None || resuming == Some(sid))
    && (if resuming == None then sync == core.ring.seen && Moves(core.sessions[sid], h', submit)
        else core.sessions[sid].completed && core.stamps[sid] <= sync && h'.pendingOp == submit)
  }

  lemma WorkerReplaces(s: Pipe, ringSize: nat, c: nat, sid: nat, h': Hs, submit: Option<Opcode>, sync: nat, at: nat,
                       resuming: Option<nat>)
    requires c < |s.cores| && WorkerCase(s.cores[c], sid, h', submit, sync, at, resuming)
    requires submit.Some? ==> !Refuses(s.cores[c].ring.(seen := sync), at, ringSize)
    requires s.cores[c].sessions[sid].completed ==> s.cores[c].sessions[sid].pendingOp.Some?
    ensures Replaced(s, WorkerStep(s, ringSize, c, sid, h', submit, sync, at, resuming), c, sid, submit)
  {
    var s' := WorkerStep(s, ringSize, c, sid, h', submit, sync, at, resuming);
    assert Waiting(s'.cores[c]) == Waiting(s.cores[c]) + (if submit.Some? then [Job(c, sid, submit.value)] else []);
  }

  /** A routine's step and a handler's step, seen as such. */
  lemma RunReplaces(s: Pipe, p: Prims, cert: bytes, ringSize: nat, ev: PkaEvent)
    requires Sound(p) && PipeInv(s, p, cert, ringSize) && ev.Worker? && CanStep(s, p, cert, ev)
    ensures Replaced(s, Step(s, p, cert, ringSize, ev), ev.core, ev.sid,
                     Apply(s.cores[ev.core].sessions[ev.sid], p, cert, ev.e).submit)
  {
    var core := s.cores[ev.core];
    var h := core.sessions[ev.sid];
    assert HandshakeProofs.Inv(At(core, ev.sid), p, cert) && RingOk(core);
    var o := Apply(h, p, cert, ev.e);
    WorkerMoves(h, p, cert, ev.e);
    ExpectedIsBranch(h, p, cert);
    WorkerRing(core, ringSize, ev.core, ev.sid, After(h, o), o.submit, core.ring.seen, ev.at, None);
    WorkerReplaces(s, ringSize, ev.core, ev.sid, After(h, o), o.submit, core.ring.seen, ev.at, None);
  }

  lemma BeginReplaces(s: Pipe, p: Prims, cert: bytes, ringSize: nat, ev: PkaEvent)
    requires PipeInv(s, p, cert, ringSize) && ev.Begin? && CanStep(s, p, cert, ev)
    ensures Replaced(s, Step(s, p, cert, ringSize, ev), ev.core, ev.sid,
                     Resume(s.cores[ev.core].sessions[ev.sid], p, ev.random).submit)
  {
    var core := s.cores[ev.core];
    var h := core.sessions[ev.sid];
    assert HandshakeProofs.Inv(At(core, ev.sid), p, cert) && RingOk(core);
    var o := Resume(h, p, ev.random);
    BeginMoves(h, p, cert, ev.random);
    ExpectedIsBranch(h, p, cert);
    WorkerRing(core, ringSize, ev.core, ev.sid, o.h, o.submit, ev.sync, ev.at, Some(ev.sid));
    WorkerReplaces(s, ringSize, ev.core, ev.sid, o.h, o.submit, ev.sync, ev.at, Some(ev.sid));
  }

  /** What the two kinds of worker step have in common. */
  lemma WorkerKeeps(s: Pipe, p: Prims, cert: bytes, ringSize: nat, c: nat, sid: nat, h': Hs, submit: Option<Opcode>,
                    sync: nat, at: nat, resuming: Option<nat>)
    requires PipeInv(s, p, cert, ringSize) && c < |s.cores|
             && WorkerCase(s.cores[c], sid, h', submit, sync, at, resuming)
    requires HandshakeProofs.Inv(if resuming == None then h' else ClearFlags(h'), p, cert)
    ensures PipeInv(WorkerStep(s, ringSize, c, sid, h', submit, sync, at, resuming), p, cert, ringSize)
  {
    var s' := WorkerStep(s, ringSize, c, sid, h', submit, sync, at, resuming);
    assert RingOk(s.cores[c]);
    WorkerRing(s.cores[c], ringSize, c, sid, h', submit, sync, at, resuming);
    ExpectedIsBranch(At(s.cores[c], sid), p, cert);
    WorkerReplaces(s, ringSize, c, sid, h', submit, sync, at, resuming);
    WorkerQueue(s, s', c, sid, submit);
    OthersKept(s, s', p, cert, c, sid);
  }

  lemma OthersKept(s: Pipe, s': Pipe, p: Prims, cert: bytes, c: nat, sid: nat)
    requires SessionsInv(s, p, cert) && |s'.cores| == |s.cores| && c < |s.cores| && sid < |s.cores[c].sessions|
    requires forall d :: 0 <= d < |s.cores| && d != c ==> s'.cores[d] == s.cores[d]
    requires |s'.cores[c].sessions| == |s.cores[c].sessions|
    requires forall d :: 0 <= d < |s.cores[c].sessions| && d != sid ==> At(s'.cores[c], d) == At(s.cores[c], d)
    requires HandshakeProofs.Inv(At(s'.cores[c], sid), p, cert)
    ensures SessionsInv(s', p, cert)
  {
    forall d, i | 0 <= d < |s'.cores| && 0 <= i < |s'.cores[d].sessions|
      ensures HandshakeProofs.Inv(At(s'.cores[d], i), p, cert)
    {
      if d != c || i != sid {
        assert At(s'.cores[d], i) == At(s.cores[d], i);
      }
    }
  }

  lemma RunKeeps(s: Pipe, p: Prims, cert: bytes, ringSize: nat, ev: PkaEvent)
    requires Sound(p) && PipeInv(s, p, cert, ringSize) && ev.Worker? && CanStep(s, p, cert, ev)
    ensures PipeInv(Step(s, p, cert, ringSize, ev), p, cert, ringSize)
  {
    var h := s.cores[ev.core].sessions[ev.sid];
    assert HandshakeProofs.Inv(At(s.cores[ev.core], ev.sid), p, cert);
    var o := Apply(h, p, cert, ev.e);
    WorkerMoves(h, p, cert, ev.e);
    WorkerKeeps(s, p, cert, ringSize, ev.core, ev.sid, After(h, o), o.submit, s.cores[ev.core].ring.seen, ev.at, None);
  }

  lemma BeginKeeps(s: Pipe, p: Prims, cert: bytes, ringSize: nat, ev: PkaEvent)
    requires PipeInv(s, p, cert, ringSize) && ev.Begin? && CanStep(s, p, cert, ev)
    ensures PipeInv(Step(s, p, cert, ringSize, ev), p, cert, ringSize)
  {
    var h := s.cores[ev.core].sessions[ev.sid];
    assert HandshakeProofs.Inv(At(s.cores[ev.core], ev.sid), p, cert);
    var o := Resume(h, p, ev.random);
    BeginMoves(h, p, cert, ev.random);
    WorkerKeeps(s, p, cert, ringSize, ev.core, ev.sid, o.h, o.submit, ev.sync, ev.at, Some(ev.sid));
  }

  lemma FinishRing(core: Core, sid: nat)
    requires RingOk(core) && core.resuming == Some(sid)
    ensures RingOk(core.(sessions := core.sessions[sid := ClearFlags(core.sessions[sid])], resuming := None))
  {
    var core' := core.(sessions := core.sessions[sid := ClearFlags(core.sessions[sid])], resuming := None);
    forall d | 0 <= d < |core'.sessions| && core'.sessions[d].completed
      ensures core'.stamps[d] <= core'.ring.popped && Past(core'.ring, core'.stamps[d], d)
    {
      assert core.sessions[d].completed && core.resuming != Some(d);
      assert Past(core.ring, core.stamps[d], d);
    }
  }

  lemma FinishReplaces(s: Pipe, c: nat)
    requires c < |s.cores| && s.cores[c].resuming.Some? && s.cores[c].resuming.value < |s.cores[c].sessions|
    ensures Replaced(s, FinishStep(s, c), c, s.cores[c].resuming.value, None)
  {
    assert Waiting(FinishStep(s, c).cores[c]) == Waiting(s.cores[c]) + [];
  }

  /** Clearing the flags changes nothing that was not already decided. */
  lemma FinishKeeps(s: Pipe, p: Prims, cert: bytes, ringSize: nat, c: nat)
    requires PipeInv(s, p, cert, ringSize) && CanStep(s, p, cert, Finish(c))
    ensures PipeInv(FinishStep(s, c), p, cert, ringSize)
  {
    var s' := FinishStep(s, c);
    var sid := s.cores[c].resuming.value;
    assert RingOk(s.cores[c]);
    FinishRing(s.cores[c], sid);
    FinishReplaces(s, c);
    WorkerQueue(s, s', c, sid, None);
    assert At(s'.cores[c], sid) == At(s.cores[c], sid);
    OthersKept(s, s', p, cert, c, sid);
  }

  lemma DequeueKeeps(s: Pipe, p: Prims, cert: bytes, ringSize: nat, c: nat)
    requires PipeInv(s, p, cert, ringSize) && CanStep(s, p, cert, Dequeue(c))
    ensures PipeInv(DequeueStep(s, c), p, cert, ringSize)
  {
    var s' := DequeueStep(s, c);
    DequeueQueue(s, c);
    assert RingOk(s.cores[c]);
    assert RingOk(s'.cores[c]) by {
      forall d | 0 <= d < |s'.cores[c].sessions| && s'.cores[c].sessions[d].completed && s'.cores[c].resuming != Some(d)
        ensures s'.cores[c].stamps[d] <= s'.cores[c].ring.popped && Past(s'.cores[c].ring, s'.cores[c].stamps[d], d)
      {
        assert Past(s.cores[c].ring, s.cores[c].stamps[d], d);
      }
    }
    forall d, i | 0 <= d < |s'.cores| && 0 <= i < |s'.cores[d].sessions|
      ensures HandshakeProofs.Inv(At(s'.cores[d], i), p, cert)
    {
      assert At(s'.cores[d], i) == At(s.cores[d], i);
    }
  }

  /** The dequeues core 0 has made when it posts an answer cover every job of the answered session. */
  lemma StampCovers(s: Pipe, k: nat)
    requires QueueInv(s) && CanComplete(s, k) && s.cores[s.hw[k].core].ring.popped <= |s.cores[s.hw[k].core].ring.log|
    ensures var core := s.cores[s.hw[k].core]; Past(core.ring, core.ring.popped, s.hw[k].sid)
  {
    var j := s.hw[k];
    var core := s.cores[j.core];
    assert CoreOk(s, j.core);
    RingDiffers(s, j.core, k);
    forall i | core.ring.popped <= i < |core.ring.log|
      ensures core.ring.log[i].sid != j.sid
    {
      assert Waiting(core)[i - core.ring.popped] == core.ring.log[i];
    }
  }

  lemma CompleteKeeps(s: Pipe, p: Prims, cert: bytes, ringSize: nat, k: nat, result: (Der.Operand, Der.Operand))
    requires PipeInv(s, p, cert, ringSize) && CanComplete(s, k)
    ensures PipeInv(CompleteStep(s, k, result), p, cert, ringSize)
  {
    var j := s.hw[k];
    var core := s.cores[j.core];
    var s' := CompleteStep(s, k, result);
    assert RingOk(core);
    CompleteQueue(s, k, result);
    StampCovers(s, k);
    CompleteRing(core, j.sid, result);
    CompleteSessions(s, p, cert, k, result);
  }

  lemma CompleteSessions(s: Pipe, p: Prims, cert: bytes, k: nat, result: (Der.Operand, Der.Operand))
    requires CanComplete(s, k) && SessionsInv(s, p, cert) && Backed(s, s.hw[k])
    ensures SessionsInv(CompleteStep(s, k, result), p, cert)
  {
    var j := s.hw[k];
    var h := s.cores[j.core].sessions[j.sid];
    assert HandshakeProofs.Inv(At(s.cores[j.core], j.sid), p, cert);
    if s.cores[j.core].resuming == Some(j.sid) {
      ResultIgnored(h, p, cert, result);
    } else {
      ResultKeeps(h, p, cert, result);
    }
    OthersKept(s, CompleteStep(s, k, result), p, cert, j.core, j.sid);
  }

  /** A result that comes before the flags are cleared. */
  lemma ResultIgnored(h: Hs, p: Prims, cert: bytes, result: (Der.Operand, Der.Operand))
    requires HandshakeProofs.Inv(ClearFlags(h), p, cert)
    ensures HandshakeProofs.Inv(ClearFlags(PostResult(h, result)), p, cert)
  {}

  lemma CompleteRing(core: Core, sid: nat, result: (Der.Operand, Der.Operand))
    requires RingOk(core) && sid < |core.sessions| && Past(core.ring, core.ring.popped, sid)
    ensures RingOk(core.(sessions := core.sessions[sid := PostResult(core.sessions[sid], result)], cnt := core.cnt - 1,
                         stamps := core.stamps[sid := core.ring.popped]))
  {
    var core' := core.(sessions := core.sessions[sid := PostResult(core.sessions[sid], result)], cnt := core.cnt - 1,
                       stamps := core.stamps[sid := core.ring.popped]);
    forall d | 0 <= d < |core'.sessions| && core'.sessions[d].completed && core'.resuming != Some(d)
      ensures core'.stamps[d] <= core'.ring.popped && Past(core'.ring, core'.stamps[d], d)
    {
      if d != sid {
        assert core.sessions[d].completed;
        assert Past(core.ring, core.stamps[d], d);
      }
    }
  }

  // ---------------------------------------------------------------- whole runs

  ghost predicate Steps(s: Pipe, p: Prims, cert: bytes, ringSize: nat, ev: PkaEvent, s': Pipe)
  {
    CanStep(s, p, cert, ev) && s' == Step(s, p, cert, ringSize, ev)
  }

  ghost predicate Run(run: seq<Pipe>, events: seq<PkaEvent>, p: Prims, cert: bytes, ringSize: nat)
  {
    && |run| == |events| + 1
    && Initial(run[0], ringSize)
    && forall i :: 0 <= i < |events| ==> Steps(run[i], p, cert, ringSize, events[i], run[i + 1])
  }

  /** Empty queues; every core's sessions fit its ring. */
  ghost predicate Initial(s: Pipe, ringSize: nat)
  {
    && s.hw == [] && !s.overflow
    && forall c :: 0 <= c < |s.cores| ==> Idle(s.cores[c]) && |s.cores[c].sessions| < ringSize
  }

  ghost predicate Idle(core: Core)
  {
    && core.ring == View([], 0, 0) && core.cnt == 0 && core.resuming == None && |core.stamps| == |core.sessions|
    && forall sid :: 0 <= sid < |core.sessions| ==> core.sessions[sid] == Cleared(core.sessions[sid].serverRecords)
  }

  lemma InitialInv(s: Pipe, p: Prims, cert: bytes, ringSize: nat)
    requires Initial(s, ringSize)
    ensures PipeInv(s, p, cert, ringSize)
  {
    forall c, sid | 0 <= c < |s.cores| && 0 <= sid < |s.cores[c].sessions|
      ensures HandshakeProofs.Inv(At(s.cores[c], sid), p, cert)
      ensures Ticket(At(s.cores[c], sid)) == None && !s.cores[c].sessions[sid].completed
    {
      assert Idle(s.cores[c]);
      HandshakeProofs.InitInv(s.cores[c].sessions[sid].serverRecords, p, cert);
    }
  }

  lemma EventKeepsPipe(s: Pipe, p: Prims, cert: bytes, ringSize: nat, ev: PkaEvent)
    requires Sound(p) && PipeInv(s, p, cert, ringSize) && CanStep(s, p, cert, ev)
    ensures PipeInv(Step(s, p, cert, ringSize, ev), p, cert, ringSize)
  {
    match ev
    case Worker(_, _, _, _) => RunKeeps(s, p, cert, ringSize, ev);
    case Begin(_, _, _, _, _) => BeginKeeps(s, p, cert, ringSize, ev);
    case Finish(c) => FinishKeeps(s, p, cert, ringSize, c);
    case Dequeue(c) => DequeueKeeps(s, p, cert, ringSize, c);
    case Complete(k, result) => CompleteKeeps(s, p, cert, ringSize, k, result);
  }

  lemma {:induction false} RunInv(run: seq<Pipe>, events: seq<PkaEvent>, p: Prims, cert: bytes, ringSize: nat, i: nat)
    requires Sound(p) && Run(run, events, p, cert, ringSize) && i < |run|
    ensures PipeInv(run[i], p, cert, ringSize)
    decreases i
  {
    if i == 0 {
      InitialInv(run[0], p, cert, ringSize);
    } else {
      var k: nat := i - 1;
      RunInv(run, events, p, cert, ringSize, k);
      assert Steps(run[k], p, cert, ringSize, events[k], run[k + 1]);
      EventKeepsPipe(run[k], p, cert, ringSize, events[k]);
    }
  }

  /** The opcode whose result each resumption branch of get_processed_crypto consumes. */
  function BranchOpcode(step: int): Option<Opcode>
  {
    if step == HELLO_REQUEST then Some(KeyGen)
    else if step == SERVER_HELLO then Some(SharedSecret)
    else if step == CERTIFICATE then Some(Signature)
    else None
  }

  /** In every run: no submission finds its ring full, whatever head it reads; a core's counter is the number of
      its jobs in the hardware and stays within the limit; no session has two jobs, and one that has a job holds
      its ticket; and every outstanding or completed request is the one its session's resumption branch expects. */
  lemma PipelineSafe(run: seq<Pipe>, events: seq<PkaEvent>, p: Prims, cert: bytes, ringSize: nat, i: nat, c: nat)
    requires Sound(p) && Run(run, events, p, cert, ringSize) && i < |run| && c < |run[i].cores|
    ensures var s := run[i]; var core := s.cores[c];
            && !s.overflow
            && core.cnt == CountOf(s.hw, c) <= MAX_OUTSTANDING
            && Distinct(Outstanding(s, c))
            && (forall sid :: 0 <= sid < |core.sessions| && Located(s, c, sid) ==> Ticket(At(core, sid)).Some?)
            && (forall j :: j in Outstanding(s, c) && j.core == c ==>
                  j.sid < |core.sessions| && BranchOpcode(core.sessions[j.sid].step) == Some(j.op))
            && (forall sid ::
                  0 <= sid < |core.sessions| && core.resuming != Some(sid) && core.sessions[sid].completed ==>
                  core.sessions[sid].pendingOp.Some?
                  && core.sessions[sid].pendingOp == BranchOpcode(core.sessions[sid].step))
  {
    RunInv(run, events, p, cert, ringSize, i);
    var s := run[i];
    var core := s.cores[c];
    assert CoreOk(s, c);
    forall j | j in Outstanding(s, c) && j.core == c
      ensures Backed(s, j) && BranchOpcode(core.sessions[j.sid].step) == Some(j.op)
    {
      assert Backed(s, j);
      ExpectedIsBranch(At(core, j.sid), p, cert);
    }
    forall sid | 0 <= sid < |core.sessions| && core.resuming != Some(sid)
      ensures core.sessions[sid].pendingOp.Some? ==>
              core.sessions[sid].pendingOp == BranchOpcode(core.sessions[sid].step)
      ensures core.sessions[sid].completed ==> core.sessions[sid].pendingOp.Some?
    {
      ExpectedIsBranch(At(core, sid), p, cert);
    }
  }

  lemma ExpectedIsBranch(h: Hs, p: Prims, cert: bytes)
    requires HandshakeProofs.Inv(h, p, cert)
    ensures h.pendingOp.Some? ==> h.pendingOp == BranchOpcode(h.step)
    ensures h.completed ==> h.pendingOp.Some?
  {}
}
