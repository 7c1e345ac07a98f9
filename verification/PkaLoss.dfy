/** A result that core 0 posts while the session's last resumption has not yet cleared its flags: it is lost,
    and the session with it. */
module PkaLoss {
  import opened Bytes
  import opened Tls
  import opened Handshake
  import HandshakeProofs
  import Session
  import RM = RingMachine
  import opened Chains
  import opened Jobs
  import opened Pka
  import Completion
  import Der

  /** Every job names the core whose ring it was enqueued on. */
  ghost predicate Home(s: Pipe)
  {
    forall c :: 0 <= c < |s.cores| ==> HomeOn(s.cores[c].ring.log, c)
  }

  ghost predicate HomeOn(log: seq<Job>, c: nat)
  {
    forall i :: 0 <= i < |log| ==> log[i].core == c
  }

  ghost predicate NoJob(s: Pipe, c: nat, sid: nat)
    requires c < |s.cores|
  {
    && (forall i :: 0 <= i < |s.hw| ==> s.hw[i].core != c || s.hw[i].sid != sid)
    && s.cores[c].ring.popped <= |s.cores[c].ring.log| && Past(s.cores[c].ring, s.cores[c].ring.popped, sid)
  }

  /** The session waits for an answer, and its job is nowhere. */
  ghost predicate Lost(s: Pipe, p: Prims, cert: bytes, c: nat, sid: nat)
  {
    && c < |s.cores| && sid < |s.cores[c].sessions| && s.cores[c].resuming != Some(sid)
    && Ticket(s.cores[c].sessions[sid]).Some? && HandshakeProofs.Inv(s.cores[c].sessions[sid], p, cert)
    && NoJob(s, c, sid) && Home(s)
  }

  /** Between the late result and the clearing of the flags. */
  ghost predicate Doomed(s: Pipe, p: Prims, cert: bytes, c: nat, sid: nat)
  {
    && c < |s.cores| && sid < |s.cores[c].sessions| && s.cores[c].resuming == Some(sid)
    && s.cores[c].sessions[sid].pendingOp.Some? && HandshakeProofs.Inv(ClearFlags(s.cores[c].sessions[sid]), p, cert)
    && NoJob(s, c, sid) && Home(s)
  }

  lemma HomeStays(s: Pipe, p: Prims, cert: bytes, ringSize: nat, ev: PkaEvent)
    requires Home(s) && CanStep(s, p, cert, ev)
    ensures Home(Step(s, p, cert, ringSize, ev))
  {
    var s' := Step(s, p, cert, ringSize, ev);
    forall c | 0 <= c < |s'.cores|
      ensures HomeOn(s'.cores[c].ring.log, c)
    {
      assert HomeOn(s.cores[c].ring.log, c);
    }
  }

  /** No step but a submission of the session itself gives it a job. */
  lemma NoJobStays(s: Pipe, p: Prims, cert: bytes, ringSize: nat, ev: PkaEvent, c: nat, sid: nat)
    requires Home(s) && c < |s.cores| && NoJob(s, c, sid) && CanStep(s, p, cert, ev)
    requires ev.Worker? && ev.core == c && ev.sid == sid ==>
             Session.Apply(s.cores[c].sessions[sid], p, cert, ev.e).submit == None
    requires ev.Begin? && ev.core == c ==> ev.sid != sid
    ensures NoJob(Step(s, p, cert, ringSize, ev), c, sid)
  {
    var s' := Step(s, p, cert, ringSize, ev);
    match ev
    case Dequeue(d) =>
      assert HomeOn(s.cores[d].ring.log, d);
      assert s'.hw == s.hw + [s.cores[d].ring.log[s.cores[d].ring.popped]];
    case Complete(k, _) => assert forall i :: 0 <= i < |s'.hw| ==> s'.hw[i] == s.hw[if i < k then i else i + 1];
    case Worker(d, other, e, _) =>
      WorkerElsewhere(s, s', c, sid, d, other, Session.Apply(s.cores[d].sessions[other], p, cert, e).submit);
    case Begin(d, other, random, _, _) =>
      WorkerElsewhere(s, s', c, sid, d, other, Resume(s.cores[d].sessions[other], p, random).submit);
    case Finish(_) =>
  }

  lemma WorkerElsewhere(s: Pipe, s': Pipe, c: nat, sid: nat, d: nat, other: nat, submit: Option<Opcode>)
    requires c < |s.cores| && NoJob(s, c, sid) && |s'.cores| == |s.cores| && d < |s.cores| && s'.hw == s.hw
    requires d != c ==> s'.cores[c] == s.cores[c]
    requires d == c ==> s'.cores[c].ring.popped == s.cores[c].ring.popped
                        && (s'.cores[c].ring.log == s.cores[c].ring.log
                            || (submit.Some?
                                && s'.cores[c].ring.log == s.cores[c].ring.log + [Job(c, other, submit.value)]))
    requires d == c && other == sid ==> submit == None
    ensures NoJob(s', c, sid)
  {
    forall i | s'.cores[c].ring.popped <= i < |s'.cores[c].ring.log|
      ensures s'.cores[c].ring.log[i].sid != sid
    {
      if i < |s.cores[c].ring.log| {
        assert s'.cores[c].ring.log[i] == s.cores[c].ring.log[i];
      }
    }
  }

  /** The event posts a result for this session between its handler and the clearing of its flags. */
  predicate LateFor(s: Pipe, ev: PkaEvent, c: nat, sid: nat)
  {
    && ev.Complete? && ev.k < |s.hw| && s.hw[ev.k].core == c && s.hw[ev.k].sid == sid
    && c < |s.cores| && s.cores[c].resuming == Some(sid)
  }

  /** The job that is answered was its session's only one. */
  lemma AnsweredHasNoJob(s: Pipe, k: nat, result: (Der.Operand, Der.Operand))
    requires QueueInv(s) && CanComplete(s, k) && s.cores[s.hw[k].core].ring.popped <= |s.cores[s.hw[k].core].ring.log|
    ensures NoJob(CompleteStep(s, k, result), s.hw[k].core, s.hw[k].sid)
  {
    assert CoreOk(s, s.hw[k].core);
    HwDiffers(s, k);
    StampCovers(s, k);
  }

  /** A result that is late takes the session's only job away. */
  lemma LateDooms(s: Pipe, p: Prims, cert: bytes, ringSize: nat, ev: PkaEvent, c: nat, sid: nat)
    requires PipeInv(s, p, cert, ringSize) && Home(s) && CanStep(s, p, cert, ev) && LateFor(s, ev, c, sid)
    ensures Doomed(Step(s, p, cert, ringSize, ev), p, cert, c, sid)
  {
    assert RingOk(s.cores[c]) && Backed(s, s.hw[ev.k]);
    HomeStays(s, p, cert, ringSize, ev);
    AnsweredHasNoJob(s, ev.k, ev.result);
    CompleteSessions(s, p, cert, ev.k, ev.result);
    assert HandshakeProofs.Inv(At(CompleteStep(s, ev.k, ev.result).cores[c], sid), p, cert);
  }

  lemma DoomedStays(s: Pipe, p: Prims, cert: bytes, ringSize: nat, ev: PkaEvent, c: nat, sid: nat)
    requires Doomed(s, p, cert, c, sid) && CanStep(s, p, cert, ev)
    ensures var s' := Step(s, p, cert, ringSize, ev);
            if ev == Finish(c) then Lost(s', p, cert, c, sid) else Doomed(s', p, cert, c, sid)
  {
    HomeStays(s, p, cert, ringSize, ev);
    NoJobStays(s, p, cert, ringSize, ev, c, sid);
    if ev != Finish(c) {
      assert Step(s, p, cert, ringSize, ev).cores[c].sessions[sid] == s.cores[c].sessions[sid];
    }
  }

  /** Whatever follows, a lost session keeps its request and never has it answered: get_processed_crypto does
      nothing for it any more, and its handshake_state stays where it is. */
  lemma LostStays(s: Pipe, p: Prims, cert: bytes, ringSize: nat, ev: PkaEvent, c: nat, sid: nat)
    requires Sound(p) && Lost(s, p, cert, c, sid) && CanStep(s, p, cert, ev)
    ensures var s' := Step(s, p, cert, ringSize, ev);
            Lost(s', p, cert, c, sid) && s'.cores[c].sessions[sid].pendingOp == s.cores[c].sessions[sid].pendingOp
  {
    HomeStays(s, p, cert, ringSize, ev);
    if ev.Worker? && ev.core == c && ev.sid == sid {
      WorkerMoves(s.cores[c].sessions[sid], p, cert, ev.e);
    } else {
      OthersLeave(s, p, cert, ringSize, ev, c, sid);
    }
    NoJobStays(s, p, cert, ringSize, ev, c, sid);
  }

  /** Only its own worker moves a session without a job. */
  lemma OthersLeave(s: Pipe, p: Prims, cert: bytes, ringSize: nat, ev: PkaEvent, c: nat, sid: nat)
    requires c < |s.cores| && sid < |s.cores[c].sessions| && s.cores[c].resuming != Some(sid)
    requires !s.cores[c].sessions[sid].completed && NoJob(s, c, sid) && CanStep(s, p, cert, ev)
    requires ev.Worker? && ev.core == c ==> ev.sid != sid
    ensures var s' := Step(s, p, cert, ringSize, ev);
            && |s'.cores| == |s.cores| && |s'.cores[c].sessions| == |s.cores[c].sessions|
            && s'.cores[c].sessions[sid] == s.cores[c].sessions[sid] && s'.cores[c].resuming != Some(sid)
  {}

  lemma {:induction false} LostForever(run: seq<Pipe>, events: seq<PkaEvent>, p: Prims, cert: bytes, ringSize: nat,
                                       c: nat, sid: nat, i: nat, j: nat)
    requires Sound(p) && Run(run, events, p, cert, ringSize) && i <= j < |run| && Lost(run[i], p, cert, c, sid)
    ensures Lost(run[j], p, cert, c, sid)
    ensures run[j].cores[c].sessions[sid].step == run[i].cores[c].sessions[sid].step
    ensures run[j].cores[c].sessions[sid].pendingOp == run[i].cores[c].sessions[sid].pendingOp
    ensures !run[j].cores[c].sessions[sid].completed
    decreases j
  {
    if i < j {
      var k: nat := j - 1;
      LostForever(run, events, p, cert, ringSize, c, sid, i, k);
      assert Steps(run[k], p, cert, ringSize, events[k], run[k + 1]);
      LostStays(run[k], p, cert, ringSize, events[k], c, sid);
      ExpectedIsBranch(run[j].cores[c].sessions[sid], p, cert);
      ExpectedIsBranch(run[i].cores[c].sessions[sid], p, cert);
    }
  }

  lemma {:induction false} HomeAlways(run: seq<Pipe>, events: seq<PkaEvent>, p: Prims, cert: bytes, ringSize: nat,
                                      i: nat)
    requires Run(run, events, p, cert, ringSize) && i < |run|
    ensures Home(run[i])
    decreases i
  {
    if i == 0 {
      forall c | 0 <= c < |run[0].cores|
        ensures HomeOn(run[0].cores[c].ring.log, c)
      {
        assert Idle(run[0].cores[c]);
      }
    } else {
      HomeAlways(run, events, p, cert, ringSize, i - 1);
      assert Steps(run[i - 1], p, cert, ringSize, events[i - 1], run[i - 1 + 1]);
      HomeStays(run[i - 1], p, cert, ringSize, events[i - 1]);
    }
  }

  lemma {:induction false} LostOrDoomed(run: seq<Pipe>, events: seq<PkaEvent>, p: Prims, cert: bytes, ringSize: nat,
                                        c: nat, sid: nat, i: nat, j: nat)
    requires Sound(p) && Run(run, events, p, cert, ringSize) && i <= j < |run| && Doomed(run[i], p, cert, c, sid)
    ensures Doomed(run[j], p, cert, c, sid) || Lost(run[j], p, cert, c, sid)
    decreases j
  {
    if i < j {
      var k: nat := j - 1;
      LostOrDoomed(run, events, p, cert, ringSize, c, sid, i, k);
      assert Steps(run[k], p, cert, ringSize, events[k], run[k + 1]);
      if Doomed(run[k], p, cert, c, sid) {
        DoomedStays(run[k], p, cert, ringSize, events[k], c, sid);
      } else {
        LostStays(run[k], p, cert, ringSize, events[k], c, sid);
      }
    }
  }

  /** A late result leaves its session with a ticket and without a job in every later state. */
  lemma LateResultLoses(run: seq<Pipe>, events: seq<PkaEvent>, p: Prims, cert: bytes, ringSize: nat,
                        c: nat, sid: nat, k: nat, i: nat)
    requires Sound(p) && Run(run, events, p, cert, ringSize) && k < i < |run| && LateFor(run[k], events[k], c, sid)
    ensures c < |run[i].cores| && sid < |run[i].cores[c].sessions|
    ensures Ticket(At(run[i].cores[c], sid)).Some? && !Located(run[i], c, sid)
  {
    RunInv(run, events, p, cert, ringSize, k);
    HomeAlways(run, events, p, cert, ringSize, k);
    assert Steps(run[k], p, cert, ringSize, events[k], run[k + 1]);
    LateDooms(run[k], p, cert, ringSize, events[k], c, sid);
    LostOrDoomed(run, events, p, cert, ringSize, c, sid, k + 1, i);
    NotLocated(run[i], c, sid);
  }

  // ---------------------------------------------------------------- nothing else loses a job

  /** If the session has a ticket, its job is somewhere. */
  ghost predicate Found(s: Pipe, c: nat, sid: nat)
  {
    c < |s.cores| && sid < |s.cores[c].sessions| && (Ticket(At(s.cores[c], sid)).Some? ==> Located(s, c, sid))
  }

  /** A job that stays outstanding keeps its session located. */
  lemma StillFound(s: Pipe, s': Pipe, c: nat, sid: nat)
    requires Found(s, c, sid) && c < |s'.cores| && sid < |s'.cores[c].sessions|
    requires Ticket(At(s'.cores[c], sid)).Some? ==> Ticket(At(s.cores[c], sid)).Some?
    requires forall j :: j in Outstanding(s, c) && j.core == c && j.sid == sid ==> j in Outstanding(s', c)
    ensures Found(s', c, sid)
  {}

  lemma WorkerFinds(s: Pipe, s': Pipe, d: nat, other: nat, submit: Option<Opcode>, c: nat, sid: nat)
    requires Found(s, c, sid) && d < |s.cores| && other < |s.cores[d].sessions| && Replaced(s, s', d, other, submit)
    ensures Found(s', c, sid)
  {
    if d == c && other == sid && submit.Some? {
      var job := Job(c, sid, submit.value);
      assert Waiting(s'.cores[c])[|Waiting(s.cores[c])|] == job;
      assert job in Outstanding(s', c);
    } else {
      if d == c && other != sid {
        assert At(s'.cores[c], sid) == At(s.cores[c], sid);
      }
      StillFound(s, s', c, sid);
    }
  }

  lemma DequeueFinds(s: Pipe, d: nat, c: nat, sid: nat)
    requires Found(s, c, sid) && d < |s.cores| && s.cores[d].ring.popped < |s.cores[d].ring.log|
    ensures Found(DequeueStep(s, d), c, sid)
  {
    var s' := DequeueStep(s, d);
    var ring := Waiting(s.cores[d]);
    assert ring == [ring[0]] + ring[1..] && Waiting(s'.cores[d]) == ring[1..];
    assert At(s'.cores[c], sid) == At(s.cores[c], sid);
    StillFound(s, s', c, sid);
  }

  lemma CompleteFinds(s: Pipe, k: nat, result: (Der.Operand, Der.Operand), c: nat, sid: nat)
    requires Found(s, c, sid) && CanComplete(s, k) && !LateFor(s, Complete(k, result), c, sid)
    ensures Found(CompleteStep(s, k, result), c, sid)
  {
    var s' := CompleteStep(s, k, result);
    if s.hw[k].core == c && s.hw[k].sid == sid {
      assert At(s'.cores[c], sid).completed;
    } else {
      RestRemains(Waiting(s.cores[c]), s.hw, k);
      StillFound(s, s', c, sid);
    }
  }

  lemma FoundStays(s: Pipe, p: Prims, cert: bytes, ringSize: nat, ev: PkaEvent, c: nat, sid: nat)
    requires Sound(p) && PipeInv(s, p, cert, ringSize) && CanStep(s, p, cert, ev)
    requires Found(s, c, sid) && !LateFor(s, ev, c, sid)
    ensures Found(Step(s, p, cert, ringSize, ev), c, sid)
  {
    var s' := Step(s, p, cert, ringSize, ev);
    match ev
    case Worker(d, other, e, _) =>
      RunReplaces(s, p, cert, ringSize, ev);
      WorkerFinds(s, s', d, other, Session.Apply(s.cores[d].sessions[other], p, cert, e).submit, c, sid);
    case Begin(d, other, random, _, _) =>
      BeginReplaces(s, p, cert, ringSize, ev);
      WorkerFinds(s, s', d, other, Resume(s.cores[d].sessions[other], p, random).submit, c, sid);
    case Finish(d) =>
      FinishReplaces(s, d);
      WorkerFinds(s, s', d, s.cores[d].resuming.value, None, c, sid);
    case Dequeue(d) => DequeueFinds(s, d, c, sid);
    case Complete(k, result) => CompleteFinds(s, k, result, c, sid);
  }

  lemma {:induction false} FoundUntilLate(run: seq<Pipe>, events: seq<PkaEvent>, p: Prims, cert: bytes, ringSize: nat,
                                          c: nat, sid: nat, i: nat)
    requires Sound(p) && Run(run, events, p, cert, ringSize) && i < |run|
    requires c < |run[0].cores| && sid < |run[0].cores[c].sessions|
    requires forall k :: 0 <= k < i ==> !LateFor(run[k], events[k], c, sid)
    ensures Found(run[i], c, sid)
    decreases i
  {
    if i == 0 {
      assert Idle(run[0].cores[c]);
    } else {
      var k: nat := i - 1;
      FoundUntilLate(run, events, p, cert, ringSize, c, sid, k);
      RunInv(run, events, p, cert, ringSize, k);
      assert Steps(run[k], p, cert, ringSize, events[k], run[k + 1]);
      FoundStays(run[k], p, cert, ringSize, events[k], c, sid);
    }
  }

  /** In every run and for every session, whatever happens to the others: its job is lost, so that it holds a
      ticket and has no job, exactly when one of its own results was late. */
  lemma LostIff(run: seq<Pipe>, events: seq<PkaEvent>, p: Prims, cert: bytes, ringSize: nat, c: nat, sid: nat, i: nat)
    requires Sound(p) && Run(run, events, p, cert, ringSize) && i < |run|
    requires c < |run[0].cores| && sid < |run[0].cores[c].sessions|
    ensures c < |run[i].cores| && sid < |run[i].cores[c].sessions|
    ensures Ticket(At(run[i].cores[c], sid)).Some? && !Located(run[i], c, sid) <==>
              exists k :: 0 <= k < i && LateFor(run[k], events[k], c, sid)
  {
    if k :| 0 <= k < i && LateFor(run[k], events[k], c, sid) {
      LateResultLoses(run, events, p, cert, ringSize, c, sid, k, i);
    } else {
      FoundUntilLate(run, events, p, cert, ringSize, c, sid, i);
    }
  }

  lemma NotLocated(s: Pipe, c: nat, sid: nat)
    requires c < |s.cores| && NoJob(s, c, sid)
    ensures !Located(s, c, sid)
  {
    var core := s.cores[c];
    forall j | j in Outstanding(s, c) && j.core == c
      ensures j.sid != sid
    {
      if j in Waiting(core) {
        var i :| 0 <= i < |Waiting(core)| && Waiting(core)[i] == j;
        assert core.ring.log[core.ring.popped + i] == j;
      }
    }
  }

  /** One worker core with one session. */
  function One(h: Hs, ring: RM.View<Job>, cnt: int, resuming: Option<nat>, stamp: nat, hw: seq<Job>): Pipe
  {
    Pipe([Core([h], ring, cnt, resuming, [stamp])], hw, false)
  }

  const KEY_JOB: Job := Job(0, 0, KeyGen)
  const SECRET_JOB: Job := Job(0, 0, SharedSecret)

  ghost predicate Reachable(s: Pipe, p: Prims, cert: bytes, ringSize: nat)
  {
    exists run, events :: Run(run, events, p, cert, ringSize) && run[|events|] == s
  }

  ghost function Link(p: Prims, cert: bytes, ringSize: nat): (Pipe, PkaEvent, Pipe) -> bool
  {
    (s, ev, s') => Steps(s, p, cert, ringSize, ev, s')
  }

  lemma RunIsChain(run: seq<Pipe>, events: seq<PkaEvent>, p: Prims, cert: bytes, ringSize: nat)
    requires Run(run, events, p, cert, ringSize)
    ensures Chain(Link(p, cert, ringSize), run, events)
  {}

  lemma ChainIsRun(run: seq<Pipe>, events: seq<PkaEvent>, p: Prims, cert: bytes, ringSize: nat)
    requires Chain(Link(p, cert, ringSize), run, events) && Initial(run[0], ringSize)
    ensures Run(run, events, p, cert, ringSize)
  {
    forall i | 0 <= i < |events|
      ensures Steps(run[i], p, cert, ringSize, events[i], run[i + 1])
    {
      assert Link(p, cert, ringSize)(run[i], events[i], run[i + 1]);
    }
  }

  lemma StepReached(s: Pipe, p: Prims, cert: bytes, ringSize: nat, ev: PkaEvent, s': Pipe)
    requires Reachable(s, p, cert, ringSize) && Link(p, cert, ringSize)(s, ev, s')
    ensures Reachable(s', p, cert, ringSize)
  {
    var run, events :| Run(run, events, p, cert, ringSize) && run[|events|] == s;
    RunIsChain(run, events, p, cert, ringSize);
    Grow(Link(p, cert, ringSize), run, events, ev, s');
    var run', events' := run + [s'], events + [ev];
    ChainIsRun(run', events', p, cert, ringSize);
    assert run'[|events'|] == s';
  }

  /** A step that keeps the invariant as well. */
  lemma SoundStep(s: Pipe, p: Prims, cert: bytes, ev: PkaEvent, s': Pipe)
    requires Sound(p) && Reachable(s, p, cert, 2) && PipeInv(s, p, cert, 2) && Home(s)
    requires Steps(s, p, cert, 2, ev, s')
    ensures Reachable(s', p, cert, 2) && PipeInv(s', p, cert, 2) && Home(s')
  {
    StepReached(s, p, cert, 2, ev, s');
    EventKeepsPipe(s, p, cert, 2, ev);
    HomeStays(s, p, cert, 2, ev);
  }

  lemma OneReplaced(core: Core, h: Hs, core': Core, h': Hs)
    ensures [core][0 := core'] == [core'] && [h][0 := h'] == [h']
  {}

  lemma HelloSubmits(p: Prims, cert: bytes, ch: ClientHello)
    requires IsHello(ch) && ch.supported
    ensures Steps(One(Cleared([]), RM.View([], 0, 0), 0, None, 0, []), p, cert, 2,
                  Worker(0, 0, Session.Packet(HelloRec(ch)), 0),
                  One(GenerateKeyPair(Cleared([]), ch).h, RM.View([KEY_JOB], 0, 0), 0, None, 0, []))
  {
    var h, h' := Cleared([]), GenerateKeyPair(Cleared([]), ch).h;
    assert Session.Apply(h, p, cert, Session.Packet(HelloRec(ch))) == GenerateKeyPair(h, ch);
    assert [] + [KEY_JOB] == [KEY_JOB];
    OneReplaced(Core([h], RM.View([], 0, 0), 0, None, [0]), h, Core([h'], RM.View([KEY_JOB], 0, 0), 0, None, [0]), h');
  }

  lemma OneDequeues(p: Prims, cert: bytes, h: Hs, log: seq<Job>, popped: nat, seen: nat, resuming: Option<nat>,
                    stamp: nat)
    requires popped < |log|
    ensures Steps(One(h, RM.View(log, popped, seen), 0, resuming, stamp, []), p, cert, 2, Dequeue(0),
                  One(h, RM.View(log, popped + 1, seen), 1, resuming, stamp, [log[popped]]))
  {}

  lemma OneCompletes(p: Prims, cert: bytes, h: Hs, ring: RM.View<Job>, resuming: Option<nat>, stamp: nat, j: Job,
                     a: Completion.Answer)
    requires j.core == 0 && j.sid == 0
    ensures Steps(One(h, ring, 1, resuming, stamp, [j]), p, cert, 2, Complete(0, a),
                  One(PostResult(h, a), ring, 0, resuming, ring.popped, []))
  {
    var h' := PostResult(h, a);
    assert Without([j], 0) == [] && [stamp][0 := ring.popped] == [ring.popped];
    OneReplaced(Core([h], ring, 1, resuming, [stamp]), h, Core([h'], ring, 0, resuming, [ring.popped]), h');
  }

  lemma OneBegins(p: Prims, cert: bytes, h: Hs, random: b32, o: Out)
    requires h.completed && o == Resume(h, p, random) && o.verdict == Continue && o.submit == Some(SharedSecret)
    ensures Steps(One(h, RM.View([KEY_JOB], 1, 0), 0, None, 1, []), p, cert, 2, Begin(0, 0, random, 1, 1),
                  One(o.h, RM.View([KEY_JOB, SECRET_JOB], 1, 1), 0, Some(0), 1, []))
  {
    assert [KEY_JOB] + [SECRET_JOB] == [KEY_JOB, SECRET_JOB];
    OneReplaced(Core([h], RM.View([KEY_JOB], 1, 0), 0, None, [1]), h,
                Core([o.h], RM.View([KEY_JOB, SECRET_JOB], 1, 1), 0, Some(0), [1]), o.h);
  }

  /** The key generation is answered. */
  lemma KeyAnswered(p: Prims, cert: bytes, ch: ClientHello, a1: Completion.Answer) returns (h: Hs, s: Pipe)
    requires Sound(p) && IsHello(ch) && ch.supported
    ensures h == PostResult(GenerateKeyPair(Cleared([]), ch).h, a1)
    ensures s == One(h, RM.View([KEY_JOB], 1, 0), 0, None, 1, [])
    ensures Reachable(s, p, cert, 2) && PipeInv(s, p, cert, 2) && Home(s)
  {
    var h1 := GenerateKeyPair(Cleared([]), ch).h;
    h := PostResult(h1, a1);
    var s0 := One(Cleared([]), RM.View([], 0, 0), 0, None, 0, []);
    var s1 := One(h1, RM.View([KEY_JOB], 0, 0), 0, None, 0, []);
    var s2 := One(h1, RM.View([KEY_JOB], 1, 0), 1, None, 0, [KEY_JOB]);
    s := One(h, RM.View([KEY_JOB], 1, 0), 0, None, 1, []);
    OneStarts(p, cert);
    HelloSubmits(p, cert, ch);
    SoundStep(s0, p, cert, Worker(0, 0, Session.Packet(HelloRec(ch)), 0), s1);
    OneDequeues(p, cert, h1, [KEY_JOB], 0, 0, None, 0);
    SoundStep(s1, p, cert, Dequeue(0), s2);
    OneCompletes(p, cert, h1, RM.View([KEY_JOB], 1, 0), None, 0, KEY_JOB, a1);
    SoundStep(s2, p, cert, Complete(0, a1), s);
  }

  /** Its handler has asked for the shared secret. */
  lemma InTheWindow(p: Prims, cert: bytes, ch: ClientHello, a1: Completion.Answer, random: b32) returns (h: Hs, s: Pipe)
    requires Sound(p) && IsHello(ch) && ch.supported && |ch.raw| + 122 < MAX_HANDSHAKE
    ensures s == One(h, RM.View([KEY_JOB, SECRET_JOB], 1, 1), 0, Some(0), 1, [])
    ensures Reachable(s, p, cert, 2) && PipeInv(s, p, cert, 2) && Home(s)
  {
    var h2, s3 := KeyAnswered(p, cert, ch, a1);
    var o := SecretAsked(p, cert, ch, a1, random);
    h := o.h;
    s := One(h, RM.View([KEY_JOB, SECRET_JOB], 1, 1), 0, Some(0), 1, []);
    OneBegins(p, cert, h2, random, o);
    SoundStep(s3, p, cert, Begin(0, 0, random, 1, 1), s);
  }

  lemma OneStarts(p: Prims, cert: bytes)
    ensures var s := One(Cleared([]), RM.View([], 0, 0), 0, None, 0, []);
            Reachable(s, p, cert, 2) && PipeInv(s, p, cert, 2) && Home(s)
  {
    var s := One(Cleared([]), RM.View([], 0, 0), 0, None, 0, []);
    assert Idle(s.cores[0]);
    InitialInv(s, p, cert, 2);
    var run, events := [s], [];
    assert Run(run, events, p, cert, 2) && run[|events|] == s;
  }

  /** The shared secret's result arrives before the flags are cleared. */
  lemma LateInWindow(p: Prims, cert: bytes, h: Hs, s: Pipe, a2: Completion.Answer) returns (s': Pipe)
    requires Sound(p) && s == One(h, RM.View([KEY_JOB, SECRET_JOB], 1, 1), 0, Some(0), 1, [])
    requires Reachable(s, p, cert, 2) && PipeInv(s, p, cert, 2) && Home(s)
    ensures Reachable(s', p, cert, 2) && |s'.cores| == 1 && |s'.cores[0].sessions| == 1 && Doomed(s', p, cert, 0, 0)
  {
    var both := [KEY_JOB, SECRET_JOB];
    var s5 := One(h, RM.View(both, 2, 1), 1, Some(0), 1, [SECRET_JOB]);
    OneDequeues(p, cert, h, both, 1, 1, Some(0), 1);
    SoundStep(s, p, cert, Dequeue(0), s5);
    s' := One(PostResult(h, a2), RM.View(both, 2, 1), 0, Some(0), 2, []);
    OneCompletes(p, cert, h, RM.View(both, 2, 1), Some(0), 1, SECRET_JOB, a2);
    StepReached(s5, p, cert, 2, Complete(0, a2), s');
    LateDooms(s5, p, cert, 2, Complete(0, a2), 0, 0);
  }

  lemma FlagsCleared(p: Prims, cert: bytes, s: Pipe) returns (s': Pipe)
    requires Reachable(s, p, cert, 2) && |s.cores| == 1 && |s.cores[0].sessions| == 1 && Doomed(s, p, cert, 0, 0)
    ensures Reachable(s', p, cert, 2) && |s'.cores| == 1 && |s'.cores[0].sessions| == 1 && Lost(s', p, cert, 0, 0)
  {
    s' := FinishStep(s, 0);
    DoomedStays(s, p, cert, 2, Finish(0), 0, 0);
    StepReached(s, p, cert, 2, Finish(0), s');
  }

  /** Such a run exists, and the session is lost. */
  lemma LateRun(p: Prims, cert: bytes, ch: ClientHello, a1: Completion.Answer, a2: Completion.Answer, random: b32)
    returns (s: Pipe)
    requires Sound(p) && IsHello(ch) && ch.supported && |ch.raw| + 122 < MAX_HANDSHAKE
    ensures Reachable(s, p, cert, 2) && |s.cores| == 1 && |s.cores[0].sessions| == 1 && Lost(s, p, cert, 0, 0)
  {
    var h, s4 := InTheWindow(p, cert, ch, a1, random);
    var s6 := LateInWindow(p, cert, h, s4, a2);
    s := FlagsCleared(p, cert, s6);
  }

  lemma SecretAsked(p: Prims, cert: bytes, ch: ClientHello, a1: Completion.Answer, random: b32) returns (o: Out)
    requires Sound(p) && IsHello(ch) && ch.supported && |ch.raw| + 122 < MAX_HANDSHAKE
    ensures o == Resume(PostResult(GenerateKeyPair(Cleared([]), ch).h, a1), p, random)
    ensures o.verdict == Continue && o.submit == Some(SharedSecret)
  {
    var h1 := GenerateKeyPair(Cleared([]), ch).h;
    HandshakeProofs.InitInv([], p, cert);
    HandshakeProofs.HelloHeld(Cleared([]), p, cert, ch);
    Session.ResultKeeps(h1, p, cert, a1);
    HandshakeProofs.HelloKeeps(PostResult(h1, a1), p, cert, random);
    o := Resume(PostResult(h1, a1), p, random);
  }
}
