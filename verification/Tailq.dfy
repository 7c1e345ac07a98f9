/** The tail queues of sys/queue.h: doubly linked, with the link fields in the nodes. Nodes and heads are
    numbered; a backward link names the field that points to the node. */
module Tailq {
  const NIL: int := -1

  /** A pointer to a forward link: tqh_first of head `b`, or tqe_next of node `n`. */
  datatype Cell = First(b: nat) | Next(n: nat)

  /** tqh_first and tqh_last */
  datatype Head = Head(first: int, last: Cell)

  /** All heads, and tqe_next and tqe_prev of all nodes. */
  datatype Links = Links(heads: seq<Head>, next: seq<int>, prev: seq<Cell>)

  /** TAILQ_INIT of every head. */
  function Empty(bins: nat, nodes: nat): Links
  {
    Links(seq(bins, b requires 0 <= b < bins => Head(NIL, First(b))), seq(nodes, _ => NIL), seq(nodes, _ => First(0)))
  }

  function At(chain: seq<nat>, i: int): int
  {
    if 0 <= i < |chain| then chain[i] else NIL
  }

  /** The link that points to position `i` of the queue with head `b`. */
  function Before(b: nat, chain: seq<nat>, i: int): Cell
  {
    if 0 < i <= |chain| then Next(chain[i - 1]) else First(b)
  }

  ghost predicate NoDup(chain: seq<nat>)
  {
    forall i, j :: 0 <= i < j < |chain| ==> chain[i] != chain[j]
  }

  /** Head `b` holds exactly `chain`, linked both ways. */
  ghost predicate Linked(l: Links, b: nat, chain: seq<nat>)
  {
    && |l.next| == |l.prev| && b < |l.heads|
    && l.heads[b] == Head(At(chain, 0), Before(b, chain, |chain|))
    && (forall i :: 0 <= i < |chain| ==> NodeOk(l, b, chain, i))
  }

  ghost predicate NodeOk(l: Links, b: nat, chain: seq<nat>, i: nat)
    requires i < |chain| && |l.next| == |l.prev|
  {
    chain[i] < |l.next| && l.next[chain[i]] == At(chain, i + 1) && l.prev[chain[i]] == Before(b, chain, i)
  }

  // ---------------------------------------------------------------- operations

  predicate Within(l: Links, c: Cell)
  {
    match c
    case First(b) => b < |l.heads|
    case Next(n) => n < |l.next|
  }

  /** `*c = v` */
  function Store(l: Links, c: Cell, v: int): Links
    requires Within(l, c)
  {
    match c
    case First(b) => l.(heads := l.heads[b := l.heads[b].(first := v)])
    case Next(n) => l.(next := l.next[n := v])
  }

  /** The pointers an insertion follows are good. */
  predicate CanInsert(l: Links, b: nat, n: nat)
  {
    b < |l.heads| && n < |l.next| == |l.prev| && Within(l, l.heads[b].last)
  }

  /** TAILQ_INSERT_TAIL */
  function InsertTail(l: Links, b: nat, n: nat): Links
    requires CanInsert(l, b, n)
  {
    var last := l.heads[b].last;
    var l1 := Store(l.(next := l.next[n := NIL], prev := l.prev[n := last]), last, n);
    l1.(heads := l1.heads[b := l1.heads[b].(last := Next(n))])
  }

  /** The pointers a removal follows are good. */
  predicate CanUnlink(l: Links, b: nat, n: nat)
  {
    b < |l.heads| && n < |l.next| == |l.prev| && NIL <= l.next[n] < |l.next| && Within(l, l.prev[n])
  }

  /** TAILQ_REMOVE: the removed node keeps its own links. */
  function Unlink(l: Links, b: nat, n: nat): Links
    requires CanUnlink(l, b, n)
  {
    var after, before := l.next[n], l.prev[n];
    Store(if after != NIL then l.(prev := l.prev[after := before])
          else l.(heads := l.heads[b := l.heads[b].(last := before)]),
          before, after)
  }

  function Drop(chain: seq<nat>, k: nat): seq<nat>
    requires k < |chain|
  {
    chain[..k] + chain[k + 1..]
  }

  // ---------------------------------------------------------------- what they do to a queue

  lemma EmptyLinked(bins: nat, nodes: nat, b: nat)
    requires b < bins
    ensures Linked(Empty(bins, nodes), b, [])
  {}

  lemma LastWithin(l: Links, b: nat, chain: seq<nat>)
    requires Linked(l, b, chain)
    ensures Within(l, l.heads[b].last)
  {
    if chain != [] {
      assert NodeOk(l, b, chain, |chain| - 1);
    }
  }

  lemma InsertTailLinks(l: Links, b: nat, chain: seq<nat>, n: nat)
    requires Linked(l, b, chain) && n < |l.next| && n !in chain && NoDup(chain)
    ensures CanInsert(l, b, n)
    ensures Linked(InsertTail(l, b, n), b, chain + [n]) && NoDup(chain + [n])
  {
    LastWithin(l, b, chain);
    var m := |chain|;
    var l' := InsertTail(l, b, n);
    var c' := chain + [n];
    forall i | 0 <= i < |c'|
      ensures NodeOk(l', b, c', i)
    {
      if i < m {
        assert NodeOk(l, b, chain, i);
        assert chain[i] in chain && chain[m - 1] in chain;
        assert i < m - 1 ==> chain[i] != chain[m - 1];
      }
    }
  }

  /** Up to an inserted node that was already linked, any queue the result could be walks like the old one. */
  lemma {:induction false} WalkedAlike(l: Links, b: nat, chain: seq<nat>, k: nat, other: seq<nat>, i: nat)
    requires Linked(l, b, chain) && NoDup(chain) && i <= k && k + 1 < |chain| && CanInsert(l, b, chain[k])
    requires Linked(InsertTail(l, b, chain[k]), b, other)
    ensures i < |other| && other[i] == chain[i]
    decreases i
  {
    if i > 0 {
      WalkedAlike(l, b, chain, k, other, i - 1);
      var l' := InsertTail(l, b, chain[k]);
      assert NodeOk(l, b, chain, i - 1) && NodeOk(l', b, other, i - 1);
      assert chain[i - 1] != chain[k] && chain[i - 1] != chain[|chain| - 1];
    }
  }

  /** Inserting a node that is already in the queue leaves no queue at all. */
  lemma InsertTwice(l: Links, b: nat, chain: seq<nat>, n: nat, other: seq<nat>)
    requires Linked(l, b, chain) && NoDup(chain) && n in chain
    ensures CanInsert(l, b, n) && !Linked(InsertTail(l, b, n), b, other)
  {
    LastWithin(l, b, chain);
    var m := |chain| - 1;
    var k :| 0 <= k <= m && chain[k] == n;
    assert NodeOk(l, b, chain, k);
    var l' := InsertTail(l, b, n);
    if Linked(l', b, other) {
      assert NodeOk(l', b, other, |other| - 1);
      if k < m {
        WalkedAlike(l, b, chain, k, other, k);
        assert NodeOk(l', b, other, k);
        assert k > 0 ==> chain[k - 1] != chain[m];
        if k > 0 {
          WalkedAlike(l, b, chain, k, other, k - 1);
        }
      }
    }
  }

  /** Node `n` is the last of its queue and its own successor. */
  predicate Looped(l: Links, b: nat, n: nat)
  {
    b < |l.heads| && n < |l.next| && l.heads[b].last == Next(n) && l.next[n] == n
  }

  lemma LoopedIsNoQueue(l: Links, b: nat, n: nat, chain: seq<nat>)
    requires Looped(l, b, n)
    ensures !Linked(l, b, chain)
  {
    if chain != [] && |l.next| == |l.prev| && chain[|chain| - 1] == n {
      assert !NodeOk(l, b, chain, |chain| - 1);
    }
  }

  /** Inserting the last node again makes it its own successor, and so it stays. */
  lemma InsertLastAgain(l: Links, b: nat, n: nat)
    requires CanInsert(l, b, n) && l.heads[b].last == Next(n)
    ensures Looped(InsertTail(l, b, n), b, n)
  {}

  /** Once such a node is at the front, taking it from the queue changes nothing: it is handed out for ever. */
  lemma LoopPops(l: Links, b: nat, n: nat)
    requires CanUnlink(l, b, n) && l.heads[b].first == n && l.next[n] == n
    requires l.prev[n] == First(b) || l.prev[n] == Next(n)
    ensures Unlink(l, b, n) == l
  {
    assert l.prev[n := l.prev[n]] == l.prev;
  }

  /** Every pointer names a link. */
  ghost predicate Sane(l: Links)
  {
    && |l.next| == |l.prev|
    && (forall b :: 0 <= b < |l.heads| ==> Within(l, l.heads[b].last))
    && (forall n :: 0 <= n < |l.next| ==> NIL <= l.next[n] < |l.next| && Within(l, l.prev[n]))
  }

  lemma InsertSane(l: Links, b: nat, n: nat)
    requires Sane(l) && b < |l.heads| && n < |l.next|
    ensures Sane(InsertTail(l, b, n))
  {}

  lemma UnlinkSane(l: Links, b: nat, n: nat)
    requires Sane(l) && b < |l.heads| && n < |l.next|
    ensures Sane(Unlink(l, b, n))
  {}

  lemma UnlinkReady(l: Links, b: nat, chain: seq<nat>, k: nat)
    requires Linked(l, b, chain) && k < |chain|
    ensures CanUnlink(l, b, chain[k])
  {
    assert NodeOk(l, b, chain, k);
    if k > 0 {
      assert NodeOk(l, b, chain, k - 1);
    }
    if k + 1 < |chain| {
      assert NodeOk(l, b, chain, k + 1);
    }
  }

  lemma DropAt(chain: seq<nat>, k: nat, i: int)
    requires k < |chain|
    ensures At(Drop(chain, k), i) == if i < k then At(chain, i) else At(chain, i + 1)
  {}

  lemma DropNoDup(chain: seq<nat>, k: nat)
    requires NoDup(chain) && k < |chain|
    ensures NoDup(Drop(chain, k)) && chain[k] !in Drop(chain, k)
  {
    var c' := Drop(chain, k);
    assert forall i :: 0 <= i < |c'| ==> c'[i] == chain[if i < k then i else i + 1];
  }

  lemma DropMembers(chain: seq<nat>, k: nat)
    requires NoDup(chain) && k < |chain|
    ensures forall m :: m in Drop(chain, k) <==> m in chain && m != chain[k]
  {
    DropNoDup(chain, k);
    forall m
      ensures m in Drop(chain, k) <==> m in chain && m != chain[k]
    {
      if m in chain && m != chain[k] {
        var j :| 0 <= j < |chain| && chain[j] == m;
        assert Drop(chain, k)[if j < k then j else j - 1] == m;
      }
    }
  }

  lemma UnlinkNext(l: Links, b: nat, chain: seq<nat>, k: nat, i: nat)
    requires Linked(l, b, chain) && NoDup(chain) && k < |chain| && CanUnlink(l, b, chain[k])
    requires i < |chain| && i != k && NodeOk(l, b, chain, i)
    ensures Unlink(l, b, chain[k]).next[chain[i]] == if i + 1 == k then At(chain, k + 1) else At(chain, i + 1)
  {
    assert NodeOk(l, b, chain, k);
    if k > 0 {
      assert chain[i] == chain[k - 1] <==> i == k - 1;
    }
  }

  lemma UnlinkPrev(l: Links, b: nat, chain: seq<nat>, k: nat, i: nat)
    requires Linked(l, b, chain) && NoDup(chain) && k < |chain| && CanUnlink(l, b, chain[k])
    requires i < |chain| && i != k && NodeOk(l, b, chain, i)
    ensures Unlink(l, b, chain[k]).prev[chain[i]] == if i == k + 1 then Before(b, chain, k) else Before(b, chain, i)
  {
    assert NodeOk(l, b, chain, k);
    if k + 1 < |chain| {
      assert chain[i] == chain[k + 1] <==> i == k + 1;
    }
  }

  lemma DropBefore(b: nat, chain: seq<nat>, k: nat, i: int)
    requires k < |chain| && i <= |chain| - 1
    ensures Before(b, Drop(chain, k), i) == if i <= k then Before(b, chain, i) else Before(b, chain, i + 1)
  {}

  /** The neighbours are joined, and the removed node's stale links still name its old neighbours. */
  lemma UnlinkLinks(l: Links, b: nat, chain: seq<nat>, k: nat)
    requires Linked(l, b, chain) && NoDup(chain) && k < |chain| && CanUnlink(l, b, chain[k])
    ensures var l' := Unlink(l, b, chain[k]);
            && Linked(l', b, Drop(chain, k)) && NoDup(Drop(chain, k))
            && l'.next[chain[k]] == At(chain, k + 1) && l'.prev[chain[k]] == Before(b, chain, k)
  {
    var l' := Unlink(l, b, chain[k]);
    var c' := Drop(chain, k);
    DropNoDup(chain, k);
    forall i | 0 <= i < |c'|
      ensures NodeOk(l', b, c', i)
    {
      var i' := if i < k then i else i + 1;
      assert c'[i] == chain[i'] && NodeOk(l, b, chain, i');
      DropAt(chain, k, i + 1);
      DropBefore(b, chain, k, i);
      UnlinkNext(l, b, chain, k, i');
      UnlinkPrev(l, b, chain, k, i');
    }
    assert NodeOk(l, b, chain, k);
    DropAt(chain, k, 0);
    DropBefore(b, chain, k, |c'|);
    assert k > 0 ==> chain[k - 1] != chain[k];
    assert k + 1 < |chain| ==> chain[k + 1] != chain[k];
  }

  /** Removing a node a second time, straight after the first and perhaps under another head `a`, rewrites the
      links as they are, except that without a successor it moves the tail of head `a`. */
  lemma UnlinkTwice(l: Links, b: nat, chain: seq<nat>, k: nat, a: nat)
    requires Linked(l, b, chain) && NoDup(chain) && k < |chain| && a < |l.heads|
    ensures CanUnlink(l, b, chain[k]) && CanUnlink(Unlink(l, b, chain[k]), a, chain[k])
    ensures var l' := Unlink(l, b, chain[k]);
            Unlink(l', a, chain[k]) ==
              if k + 1 < |chain| then l'
              else l'.(heads := l'.heads[a := l'.heads[a].(last := l'.heads[b].last)])
  {
    UnlinkReady(l, b, chain, k);
    UnlinkLinks(l, b, chain, k);
    assert NodeOk(l, b, chain, k);
    assert k > 0 ==> chain[k - 1] != chain[k];
    if k + 1 < |chain| {
      assert NodeOk(l, b, chain, k + 1) && chain[k + 1] != chain[k];
    }
  }

  /** The chain without the nodes in `gone`. */
  function Kept(chain: seq<nat>, gone: set<nat>): seq<nat>
  {
    if chain == [] then []
    else (if chain[0] in gone then [] else [chain[0]]) + Kept(chain[1..], gone)
  }

  lemma {:induction false} KeptAppend(a: seq<nat>, b: seq<nat>, gone: set<nat>)
    ensures Kept(a + b, gone) == Kept(a, gone) + Kept(b, gone)
    decreases |a|
  {
    if a == [] {
      assert a + b == b;
    } else {
      assert (a + b)[1..] == a[1..] + b;
      KeptAppend(a[1..], b, gone);
    }
  }

  lemma {:induction false} KeptAll(chain: seq<nat>, gone: set<nat>)
    requires forall x :: x in chain ==> x !in gone
    ensures Kept(chain, gone) == chain
  {
    if chain != [] {
      KeptAll(chain[1..], gone);
    }
  }

  lemma {:induction false} KeptTwice(chain: seq<nat>, a: set<nat>, b: set<nat>)
    ensures Kept(Kept(chain, a), b) == Kept(chain, a + b)
  {
    if chain != [] {
      KeptTwice(chain[1..], a, b);
      KeptAppend(if chain[0] in a then [] else [chain[0]], Kept(chain[1..], a), b);
    }
  }

  /** Taking a node out by position is filtering it out. */
  lemma {:induction false} DropIsKept(chain: seq<nat>, k: nat)
    requires NoDup(chain) && k < |chain|
    ensures Drop(chain, k) == Kept(chain, {chain[k]})
    decreases k
  {
    if k == 0 {
      KeptAll(chain[1..], {chain[0]});
    } else {
      DropIsKept(chain[1..], k - 1);
      DropTail(chain, k);
    }
  }

  lemma DropTail(chain: seq<nat>, k: nat)
    requires 0 < k < |chain|
    ensures Drop(chain, k) == [chain[0]] + Drop(chain[1..], k - 1)
  {}

  /** Filtering a node out keeps the others, and loses one position if it was there. */
  lemma KeptWithout(chain: seq<nat>, n: nat)
    requires NoDup(chain) && n in chain
    ensures NoDup(Kept(chain, {n})) && |Kept(chain, {n})| == |chain| - 1
    ensures forall m: nat :: m in Kept(chain, {n}) <==> m in chain && m != n
  {
    var k :| 0 <= k < |chain| && chain[k] == n;
    DropIsKept(chain, k);
    DropNoDup(chain, k);
    DropMembers(chain, k);
  }

  lemma KeptHead(chain: seq<nat>)
    requires NoDup(chain) && chain != []
    ensures Kept(chain, {chain[0]}) == chain[1..]
  {
    DropIsKept(chain, 0);
  }

  lemma KeptLast(chain: seq<nat>)
    requires NoDup(chain) && chain != []
    ensures Kept(chain, {chain[|chain| - 1]}) == chain[..|chain| - 1]
  {
    DropIsKept(chain, |chain| - 1);
  }

  /** Two states of the links agree on head `b` and on the nodes of its queue. */
  ghost predicate SameOn(l: Links, l': Links, b: nat, chain: seq<nat>)
  {
    && |l'.next| == |l.next| && |l'.prev| == |l.prev| && b < |l.heads| && b < |l'.heads| && l'.heads[b] == l.heads[b]
    && forall i :: 0 <= i < |chain| ==>
         chain[i] < |l.next| && chain[i] < |l.prev|
         && l'.next[chain[i]] == l.next[chain[i]] && l'.prev[chain[i]] == l.prev[chain[i]]
  }

  lemma OtherLinked(l: Links, l': Links, b: nat, chain: seq<nat>)
    requires Linked(l, b, chain) && SameOn(l, l', b, chain)
    ensures Linked(l', b, chain)
  {
    forall i | 0 <= i < |chain|
      ensures NodeOk(l', b, chain, i)
    {
      assert NodeOk(l, b, chain, i);
    }
  }

  /** Inserting into or unlinking from one queue touches no node of a disjoint one. */
  lemma InsertTailElsewhere(l: Links, b: nat, chain: seq<nat>, n: nat, a: nat, other: seq<nat>)
    requires Linked(l, b, chain) && CanInsert(l, b, n) && a < |l.heads| && a != b
    requires n !in other && (forall x :: x in chain ==> x !in other)
    requires forall x :: x in other ==> x < |l.next|
    ensures SameOn(l, InsertTail(l, b, n), a, other)
  {
    if chain != [] {
      assert chain[|chain| - 1] in chain;
    }
    forall i | 0 <= i < |other|
      ensures other[i] < |l.next| && other[i] != n && l.heads[b].last != Next(other[i])
    {
      assert other[i] in other;
    }
  }

  lemma UnlinkElsewhere(l: Links, b: nat, chain: seq<nat>, k: nat, a: nat, other: seq<nat>)
    requires Linked(l, b, chain) && k < |chain| && CanUnlink(l, b, chain[k]) && a < |l.heads| && a != b
    requires forall x :: x in chain ==> x !in other
    requires forall x :: x in other ==> x < |l.next|
    ensures SameOn(l, Unlink(l, b, chain[k]), a, other)
  {
    var after, before := l.next[chain[k]], l.prev[chain[k]];
    assert NodeOk(l, b, chain, k);
    assert after == NIL || after in chain;
    assert before == First(b) || before.n in chain;
    forall i | 0 <= i < |other|
      ensures other[i] < |l.next| && other[i] != after && before != Next(other[i])
    {
      assert other[i] in other;
    }
  }
}
