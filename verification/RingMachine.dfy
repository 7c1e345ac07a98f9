/** The same ring under two threads, stepped at every load and store. An acquire load of the other side's
    index may return any value of its modification order that is not older than the last one this thread
    saw, as C11 coherence allows; a thread reads its own index exactly. */
module RingMachine {
  import opened Bits

  datatype Producer<T> =
    | PIdle
    | PCalled(obj: T)
    | PTail(obj: T, t: nat)          // tail loaded
    | PRoom(obj: T, t: nat)          // head loaded, not full
    | PWritten(obj: T, t: nat)       // slot written, tail not yet stored

  datatype Consumer<T> =
    | CIdle
    | CHead(h: nat)                  // head loaded
    | CItem(h: nat)                  // tail loaded, not empty
    | CRead(h: nat, x: T)            // slot read, head not yet stored

  /** `tails` and `heads` are the modification orders of the two indices, `seenHead` and `seenTail` the
      positions last read by the other side; `log` and `out` are the items enqueued and dequeued so far. */
  datatype Machine<T> = Machine(
    k: nat, slots: seq<T>, tails: seq<nat>, heads: seq<nat>,
    p: Producer<T>, seenHead: nat, c: Consumer<T>, seenTail: nat,
    log: seq<T>, out: seq<T>)

  function Size<T>(m: Machine<T>): nat { Pow2(m.k) }
  function Pushed<T>(m: Machine<T>): int { |m.tails| - 1 }
  function Popped<T>(m: Machine<T>): int { |m.heads| - 1 }

  datatype Action<T> =
    | PCall(obj: T)
    | PLoadTail
    | PLoadHead(at: nat)      // position of the value in the modification order
    | PSync(at: nat)          // the producer acquires something the consumer released after that head store
    | PWrite
    | PStore
    | CLoadHead
    | CLoadTail(at: nat)
    | CReadSlot
    | CStore

  predicate Enabled<T>(m: Machine<T>, a: Action<T>)
  {
    match a
    case PCall(_) => m.p.PIdle?
    case PLoadTail => m.p.PCalled? && m.tails != []
    case PLoadHead(at) => m.p.PTail? && m.seenHead <= at < |m.heads|
    case PSync(at) => m.seenHead <= at < |m.heads|
    case PWrite => m.p.PRoom?
    case PStore => m.p.PWritten?
    case CLoadHead => m.c.CIdle? && m.heads != []
    case CLoadTail(at) => m.c.CHead? && m.seenTail <= at < |m.tails|
    case CReadSlot => m.c.CItem? && m.c.h < |m.slots|
    case CStore => m.c.CRead?
  }

  function Mask<T>(m: Machine<T>): nat { Pow2(m.k) - 1 }

  function Do<T>(m: Machine<T>, a: Action<T>): Machine<T>
    requires Enabled(m, a)
  {
    match a
    case PCall(obj) => m.(p := PCalled(obj))
    case PLoadTail => m.(p := PTail(m.p.obj, m.tails[|m.tails| - 1]))
    case PLoadHead(at) =>
      m.(seenHead := at,
         p := if And(m.p.t + 1, Mask(m)) == m.heads[at] then PIdle else PRoom(m.p.obj, m.p.t))
    case PSync(at) => m.(seenHead := at)
    case PWrite =>
      m.(slots := if m.p.t < |m.slots| then m.slots[m.p.t := m.p.obj] else m.slots, p := PWritten(m.p.obj, m.p.t))
    case PStore => m.(tails := m.tails + [And(m.p.t + 1, Mask(m))], log := m.log + [m.p.obj], p := PIdle)
    case CLoadHead => m.(c := CHead(m.heads[|m.heads| - 1]))
    case CLoadTail(at) =>
      m.(seenTail := at, c := if m.c.h == m.tails[at] then CIdle else CItem(m.c.h))
    case CReadSlot => m.(c := CRead(m.c.h, m.slots[m.c.h]))
    case CStore => m.(heads := m.heads + [And(m.c.h + 1, Mask(m))], out := m.out + [m.c.x], c := CIdle)
  }

  ghost predicate Init<T>(m: Machine<T>)
  {
    && |m.slots| == Size(m) && m.tails == [0] && m.heads == [0] && m.p.PIdle? && m.c.CIdle?
    && m.seenHead == 0 && m.seenTail == 0 && m.log == [] && m.out == []
  }

  // ---------------------------------------------------------------- the invariant

  /** The successive values of an index go round the ring. */
  ghost predicate Cycles(index: seq<nat>, n: nat)
    requires n > 0
  {
    forall i :: 0 <= i < |index| ==> index[i] == Slot(i, n)
  }

  lemma CyclesOn(index: seq<nat>, k: nat)
    requires Cycles(index, Pow2(k)) && index != []
    ensures Cycles(index + [And(index[|index| - 1] + 1, Pow2(k) - 1)], Pow2(k))
  {
    MaskedNext(|index| - 1, k);
  }

  /** Indices run round the ring, and neither side overtakes what the other has seen. */
  ghost predicate Indices<T>(m: Machine<T>)
  {
    && |m.slots| == Size(m) && m.tails != [] && m.heads != []
    && Cycles(m.tails, Size(m)) && Cycles(m.heads, Size(m))
    && m.seenHead <= Popped(m) <= m.seenTail <= Pushed(m) <= m.seenHead + Size(m) - 1
  }

  ghost predicate ProducerOk<T>(m: Machine<T>)
    requires m.tails != []
  {
    match m.p
    case PIdle => true
    case PCalled(_) => true
    case PTail(_, t) => t == Slot(Pushed(m), Size(m))
    case PRoom(_, t) => t == Slot(Pushed(m), Size(m)) && Pushed(m) + 1 <= m.seenHead + Size(m) - 1
    case PWritten(obj, t) =>
      t == Slot(Pushed(m), Size(m)) && Pushed(m) + 1 <= m.seenHead + Size(m) - 1 && t < |m.slots| && m.slots[t] == obj
  }

  ghost predicate ConsumerOk<T>(m: Machine<T>)
    requires m.heads != []
  {
    match m.c
    case CIdle => true
    case CHead(h) => h == Slot(Popped(m), Size(m))
    case CItem(h) => h == Slot(Popped(m), Size(m)) && Popped(m) < m.seenTail
    case CRead(h, x) => h == Slot(Popped(m), Size(m)) && Popped(m) < m.seenTail <= |m.log| && x == m.log[Popped(m)]
  }

  /** Published and unconsumed items are in their slots; what came out is a prefix of what went in. */
  ghost predicate Data<T>(m: Machine<T>)
  {
    && |m.log| == Pushed(m) && |m.out| == Popped(m) <= |m.log| && m.out == m.log[..|m.out|]
    && |m.slots| == Size(m)
    && (forall i {:trigger m.log[i]} :: Popped(m) <= i < Pushed(m) ==> m.slots[Slot(i, Size(m))] == m.log[i])
  }

  ghost predicate Inv<T>(m: Machine<T>)
  {
    Indices(m) && ProducerOk(m) && ConsumerOk(m) && Data(m)
  }

  /** The masked increment moves to the next slot. */
  lemma MaskedNext(i: nat, k: nat)
    ensures And(Slot(i, Pow2(k)) + 1, Pow2(k) - 1) == Slot(i + 1, Pow2(k))
  {
    MaskStep(Slot(i, Pow2(k)), k);
    NextSlot(i, Pow2(k));
  }

  lemma InitInv<T>(m: Machine<T>)
    requires Init(m)
    ensures Inv(m)
  {}

  lemma ProducerKeeps<T>(m: Machine<T>, a: Action<T>)
    requires Inv(m) && Enabled(m, a) && (a.PCall? || a.PLoadTail? || a.PSync?)
    ensures Inv(Do(m, a))
  {}

  /** Full exactly when size - 1 items lie between the head that was read and the tail. */
  lemma LoadHeadKeeps<T>(m: Machine<T>, at: nat)
    requires Inv(m) && Enabled(m, PLoadHead(at))
    ensures Inv(Do(m, PLoadHead(at)))
    ensures Do(m, PLoadHead(at)).p.PIdle? <==> Pushed(m) - at == Size(m) - 1
  {
    FullTest(at, Pushed(m), m.k);
    assert m.heads[at] == Slot(at, Size(m));
  }

  lemma FullTest(seen: nat, pushed: nat, k: nat)
    requires seen <= pushed <= seen + Pow2(k) - 1
    ensures And(Slot(pushed, Pow2(k)) + 1, Pow2(k) - 1) == Slot(seen, Pow2(k)) <==> pushed - seen == Pow2(k) - 1
  {
    MaskedNext(pushed, k);
    SameSlot(seen, pushed + 1, Pow2(k));
  }

  lemma WriteKeeps<T>(m: Machine<T>)
    requires Inv(m) && m.p.PRoom?
    ensures Inv(Do(m, PWrite))
  {
    var m' := Do(m, PWrite);
    forall i {:trigger m'.log[i]} | Popped(m) <= i < Pushed(m)
      ensures m'.slots[Slot(i, Size(m))] == m'.log[i]
    {
      assert m.slots[Slot(i, Size(m))] == m.log[i];
      SameSlot(i, Pushed(m), Size(m));
    }
  }

  lemma PublishKeeps<T>(m: Machine<T>)
    requires Inv(m) && m.p.PWritten?
    ensures Inv(Do(m, PStore))
  {
    CyclesOn(m.tails, m.k);
    var m' := Do(m, PStore);
    forall i {:trigger m'.log[i]} | Popped(m') <= i < Pushed(m')
      ensures m'.slots[Slot(i, Size(m))] == m'.log[i]
    {
      if i < Pushed(m) {
        assert m'.log[i] == m.log[i];
      }
    }
  }

  lemma ConsumerKeeps<T>(m: Machine<T>, a: Action<T>)
    requires Inv(m) && Enabled(m, a) && (a.CLoadHead? || a.CLoadTail? || a.CReadSlot?)
    ensures Inv(Do(m, a))
    ensures a.CLoadTail? ==> (Do(m, a).c.CIdle? <==> a.at == Popped(m))
  {
    if a.CLoadTail? {
      SameSlot(Popped(m), a.at, Size(m));
    } else if a.CReadSlot? {
      assert m.slots[Slot(Popped(m), Size(m))] == m.log[Popped(m)];
    }
  }

  lemma ConsumeKeeps<T>(m: Machine<T>)
    requires Inv(m) && m.c.CRead?
    ensures Inv(Do(m, CStore))
  {
    CyclesOn(m.heads, m.k);
    var m' := Do(m, CStore);
    assert m.log[..|m.out| + 1] == m.log[..|m.out|] + [m.log[|m.out|]];
    forall i {:trigger m'.log[i]} | Popped(m') <= i < Pushed(m')
      ensures m'.slots[Slot(i, Size(m))] == m'.log[i]
    {
      assert m.log[i] == m'.log[i];
    }
  }

  lemma StepKeeps<T>(m: Machine<T>, a: Action<T>)
    requires Inv(m) && Enabled(m, a)
    ensures Inv(Do(m, a))
  {
    match a
    case PWrite => WriteKeeps(m);
    case PStore => PublishKeeps(m);
    case CStore => ConsumeKeeps(m);
    case CLoadHead => ConsumerKeeps(m, a);
    case CLoadTail(_) => ConsumerKeeps(m, a);
    case CReadSlot => ConsumerKeeps(m, a);
    case PLoadHead(at) => LoadHeadKeeps(m, at);
    case _ => ProducerKeeps(m, a);
  }

  // ---------------------------------------------------------------- the FIFO it implements

  /** The abstract queue: enqueued and not yet dequeued. */
  ghost function Queue<T>(m: Machine<T>): seq<T>
    requires |m.out| <= |m.log|
  {
    m.log[|m.out|..]
  }

  /** Every step is a step of a FIFO of capacity size - 1: the tail store enqueues at the back of a queue
      that has room, the head store hands out the front, nothing else changes it. A refusal is right for
      the index value it read, and so exact when that value is current. */
  lemma StepIsFifo<T>(m: Machine<T>, a: Action<T>)
    requires Inv(m) && Enabled(m, a)
    ensures Inv(Do(m, a))
    ensures var m' := Do(m, a);
            && |Queue(m)| <= Size(m) - 1
            && (a.PStore? ==> |Queue(m)| < Size(m) - 1 && Queue(m') == Queue(m) + [m.p.obj] && m'.out == m.out)
            && (a.CStore? ==> Queue(m) != [] && m.c.x == Queue(m)[0] && Queue(m') == Queue(m)[1..]
                              && m'.out == m.out + [Queue(m)[0]])
            && (!a.PStore? && !a.CStore? ==> Queue(m') == Queue(m) && m'.out == m.out)
            && (a.PLoadHead? && a.at == Popped(m) ==> (m'.p.PIdle? <==> |Queue(m)| == Size(m) - 1))
            && (a.CLoadTail? && a.at == Pushed(m) ==> (m'.c.CIdle? <==> Queue(m) == []))
  {
    StepKeeps(m, a);
    if a.PLoadHead? {
      LoadHeadKeeps(m, a.at);
    } else if a.CLoadTail? {
      ConsumerKeeps(m, a);
    }
  }

  /** The ring as its users see it: all items enqueued so far, how many were dequeued, and how many of those
      dequeues the producer is bound to have seen. */
  datatype View<T> = View(log: seq<T>, popped: nat, seen: nat)

  function ViewOf<T>(m: Machine<T>): View<T>
    requires m.heads != []
  {
    View(m.log, |m.heads| - 1, m.seenHead)
  }

  /** sj_ring_enqueue refuses by the head it read, which may lag behind the dequeues. */
  predicate Refuses<T>(v: View<T>, at: nat, size: nat)
  {
    |v.log| - at == size - 1
  }

  /** Every step of the two threads is one of five moves on the view: the producer reads any head between
      the last it has seen and the current one and is refused exactly by that head, it synchronises, the
      tail store enqueues, the head store dequeues in order, or nothing changes. */
  lemma StepIsView<T>(m: Machine<T>, a: Action<T>)
    requires Inv(m) && Enabled(m, a)
    ensures var v := ViewOf(m); var m' := Do(m, a); var v' := ViewOf(m');
            && v.seen <= v.popped <= |v.log| <= v.seen + Size(m) - 1
            && (a.PLoadHead? ==> v.seen <= a.at <= v.popped && v' == v.(seen := a.at)
                                 && (m'.p.PIdle? <==> Refuses(v, a.at, Size(m))))
            && (a.PSync? ==> v.seen <= a.at <= v.popped && v' == v.(seen := a.at))
            && (a.PStore? ==> v' == v.(log := v.log + [m.p.obj]))
            && (a.CStore? ==> v.popped < |v.log| && m.c.x == v.log[v.popped] && v' == v.(popped := v.popped + 1))
            && (a.PCall? || a.PLoadTail? || a.PWrite? || a.CLoadHead? || a.CLoadTail? || a.CReadSlot? ==> v' == v)
  {
    StepKeeps(m, a);
    if a.PLoadHead? {
      LoadHeadKeeps(m, a.at);
    }
  }

  /** No data race: a slot is read only after its publication was seen, and written only when no
      unconsumed item, and no item the consumer is reading, is in it. */
  lemma NoRace<T>(m: Machine<T>)
    requires Inv(m)
    ensures m.c.CItem? ==> Popped(m) < m.seenTail <= Pushed(m) && m.c.h == Slot(Popped(m), Size(m))
    ensures m.p.PRoom? ==> forall i :: Popped(m) <= i < Pushed(m) ==> Slot(i, Size(m)) != m.p.t
    ensures m.p.PRoom? && (m.c.CItem? || m.c.CRead?) ==> m.p.t != m.c.h
  {
    if m.p.PRoom? {
      forall i | Popped(m) <= i < Pushed(m)
        ensures Slot(i, Size(m)) != m.p.t
      {
        SameSlot(i, Pushed(m), Size(m));
      }
      if m.c.CItem? || m.c.CRead? {
        SameSlot(Popped(m), Pushed(m), Size(m));
      }
    }
  }

  ghost predicate Run<T>(run: seq<Machine<T>>, actions: seq<Action<T>>)
  {
    && |run| == |actions| + 1 && Init(run[0])
    && forall i :: 0 <= i < |actions| ==> Enabled(run[i], actions[i]) && run[i + 1] == Do(run[i], actions[i])
  }

  /** In every interleaving, what has been dequeued is a prefix of what has been enqueued, never more than
      size - 1 items behind. */
  lemma {:induction false} DequeuedIsPrefix<T>(run: seq<Machine<T>>, actions: seq<Action<T>>, i: nat)
    requires Run(run, actions) && i < |run|
    ensures Inv(run[i])
    ensures |run[i].out| <= |run[i].log| <= |run[i].out| + Size(run[i]) - 1 && run[i].out == run[i].log[..|run[i].out|]
    decreases i
  {
    if i == 0 {
      InitInv(run[0]);
    } else {
      DequeuedIsPrefix(run, actions, i - 1);
      StepKeeps(run[i - 1], actions[i - 1]);
    }
  }

  ghost predicate Reachable<T(!new)>(m: Machine<T>)
  {
    exists run, actions :: Run(run, actions) && run[|actions|] == m
  }

  lemma StepReached<T(!new)>(m: Machine<T>, a: Action<T>)
    requires Reachable(m) && Inv(m) && Enabled(m, a)
    ensures Reachable(Do(m, a)) && Inv(Do(m, a))
  {
    var run, actions :| Run(run, actions) && run[|actions|] == m;
    var run', actions' := run + [Do(m, a)], actions + [a];
    assert run'[0] == run[0];
    assert Run(run', actions') && run'[|actions'|] == Do(m, a);
    StepKeeps(m, a);
  }

  /** One item enqueued into a ring of two slots and dequeued again. */
  lemma RoundTrip<T(!new)>(x: T) returns (m: Machine<T>)
    ensures Reachable(m) && Inv(m) && Resting(m, 1, 1)
  {
    m := Machine(1, [x, x], [0], [0], PIdle, 0, CIdle, 0, [], []);
    assert Pow2(1) == 2;
    var run, actions: seq<Action<T>> := [m], [];
    assert Run(run, actions) && run[|actions|] == m;
    InitInv(m);
    m := Enqueues(m, x);
    m := Dequeues(m);
  }

  /** Both threads idle on a ring of two slots, the producer not having seen any dequeue. */
  predicate Resting<T>(m: Machine<T>, pushed: nat, popped: nat)
  {
    m.k == 1 && m.p.PIdle? && m.c.CIdle? && m.seenHead == 0 && Pushed(m) == pushed && Popped(m) == popped
  }

  lemma Enqueues<T(!new)>(m: Machine<T>, x: T) returns (m': Machine<T>)
    requires Reachable(m) && Inv(m) && Resting(m, 0, 0)
    ensures Reachable(m') && Inv(m') && Resting(m', 1, 0)
  {
    assert Pow2(1) == 2;
    StepReached(m, PCall(x));
    var m1 := Do(m, PCall(x));
    StepReached(m1, PLoadTail);
    var m2 := Do(m1, PLoadTail);
    LoadHeadKeeps(m2, 0);
    StepReached(m2, PLoadHead(0));
    var m3 := Do(m2, PLoadHead(0));
    StepReached(m3, PWrite);
    var m4 := Do(m3, PWrite);
    StepReached(m4, PStore);
    m' := Do(m4, PStore);
  }

  lemma Dequeues<T(!new)>(m: Machine<T>) returns (m': Machine<T>)
    requires Reachable(m) && Inv(m) && Resting(m, 1, 0)
    ensures Reachable(m') && Inv(m') && Resting(m', 1, 1)
  {
    StepReached(m, CLoadHead);
    var m1 := Do(m, CLoadHead);
    ConsumerKeeps(m1, CLoadTail(1));
    StepReached(m1, CLoadTail(1));
    var m2 := Do(m1, CLoadTail(1));
    StepReached(m2, CReadSlot);
    var m3 := Do(m2, CReadSlot);
    StepReached(m3, CStore);
    m' := Do(m3, CStore);
  }

  /** The ring is not an exact bounded queue: a producer that sees the head late is refused although the queue
      is empty. */
  lemma StaleHeadRefuses<T(!new)>(x: T) returns (m: Machine<T>)
    ensures Reachable(m) && Inv(m) && Queue(m) == [] && Enabled(m, PLoadHead(0)) && Do(m, PLoadHead(0)).p.PIdle?
  {
    m := RoundTrip(x);
    assert Pow2(1) == 2;
    StepReached(m, PCall(x));
    var m1 := Do(m, PCall(x));
    StepReached(m1, PLoadTail);
    m := Do(m1, PLoadTail);
    LoadHeadKeeps(m, 0);
  }
}
