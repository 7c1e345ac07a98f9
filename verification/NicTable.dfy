/** A NIC core's connections: the free queue, the active-session table and the main loop's sweep. */
module NicTable {
  import opened Bytes
  import opened Tailq
  import opened Table
  import opened SeqNum
  import opened Tls
  import opened Handshake
  import Nic
  import FreeSlots
  import Hash

  type Tuple = Nic.Tuple

  /** The twelve key bytes of calculate_hash: addresses and ports in network order, as the packet had them. */
  function KeyBytes(t: Tuple): bytes
  {
    U32(t.clientIp) + U32(t.serverIp) + U16(t.clientPort) + U16(t.serverPort)
  }

  /** The bucket function of the NIC's table. */
  function Bucket(t: Tuple): (b: nat)
    ensures b < Hash.NUM_BINS
  {
    Hash.Bin(KeyBytes(t))
  }

  // ---------------------------------------------------------------- duplicates of the opening SYN

  /** The window insert_tcp_connection opens. */
  function Opening(cookie: u32, seqNo: u32, len: u16): Window
  {
    Window(Wrap32(seqNo + 1), Wrap32(cookie + 1), len, Wrap32(seqNo + 1))
  }

  /** validate_syn_packet: the SYN counts as a retransmission. */
  predicate Retransmits(w: Window, seqNo: u32)
  {
    Wrap32(seqNo + 1) == w.recvSeq
  }

  datatype Arrival = Arrival(seqNo: u32, ackNo: u32, len: u16)

  /** process_handshake_packet at a connection that is not onloaded, as far as its window is concerned. */
  function Accept(w: Window, a: Arrival): Window
  {
    match Validate(w, a.seqNo, a.ackNo, a.len)
    case SeqOk => Window(a.seqNo, a.ackNo, a.len, w.sentAck)
    case SeqOver => w.(sentAck := Wrap32(w.recvSeq + w.recvLen))
    case SeqUnder => w
    case Weird => w
  }

  /** Both are what the connection's own steps do to its window. */
  lemma WindowIsConnections(c: Nic.Conn, inc: nat, tuple: Tuple, cookie: u32, seqNo: u32, len: u16, a: Arrival,
                            packet: bytes)
    ensures Nic.Opened(c, inc, tuple, cookie, seqNo, len).w == Opening(cookie, seqNo, len)
    ensures !c.onload ==> Nic.Arrived(c, a.seqNo, a.ackNo, a.len, packet).w == Accept(c.w, a)
  {}

  function AcceptAll(w: Window, arrivals: seq<Arrival>): Window
  {
    if arrivals == [] then w
    else Accept(AcceptAll(w, arrivals[..|arrivals| - 1]), arrivals[|arrivals| - 1])
  }

  /** Where the last segment that was accepted starts, if one was. */
  function LastAccepted(w: Window, arrivals: seq<Arrival>): Option<u32>
  {
    if arrivals == [] then None
    else
      var front, a := arrivals[..|arrivals| - 1], arrivals[|arrivals| - 1];
      if Validate(AcceptAll(w, front), a.seqNo, a.ackNo, a.len) == SeqOk then Some(a.seqNo) else LastAccepted(w, front)
  }

  /** Along the life of a connection a duplicate of the SYN that opened it counts as a retransmission exactly
      while no segment was accepted or the last one accepted starts directly behind the SYN. */
  lemma {:induction false} DuplicateSynIff(cookie: u32, seqNo: u32, len: u16, arrivals: seq<Arrival>)
    ensures var w := Opening(cookie, seqNo, len);
            var last := LastAccepted(w, arrivals);
            Retransmits(AcceptAll(w, arrivals), seqNo) <==> last == None || last == Some(Wrap32(seqNo + 1))
    decreases |arrivals|
  {
    if arrivals != [] {
      DuplicateSynIff(cookie, seqNo, len, arrivals[..|arrivals| - 1]);
    }
  }

  /** A SYN, a ClientHello segment and the client's next segment: from then on a late duplicate of the SYN is
      taken for a new one. */
  lemma LateDuplicate(cookie: u32, seqNo: u32, hello: u16, ackNo: u32, len: u16)
    requires 0 < hello
    ensures var w := Opening(cookie, seqNo, 0);
            var first := Arrival(Wrap32(seqNo + 1), Wrap32(cookie + 1), hello);
            var second := Arrival(Wrap32(seqNo + 1 + hello), ackNo, len);
            && Retransmits(AcceptAll(w, [first]), seqNo)
            && !Retransmits(AcceptAll(w, [first, second]), seqNo)
  {
    var w := Opening(cookie, seqNo, 0);
    var first := Arrival(Wrap32(seqNo + 1), Wrap32(cookie + 1), hello);
    var second := Arrival(Wrap32(seqNo + 1 + hello), ackNo, len);
    WrapAdd(seqNo + 1, hello);
    assert [first][..0] == [] && [first, second][..1] == [first];
    assert AcceptAll(w, []) == w;
    assert AcceptAll(w, [first]) == Accept(w, first) == Window(first.seqNo, first.ackNo, hello, w.sentAck);
    assert Accept(AcceptAll(w, [first]), second) == Window(second.seqNo, ackNo, len, w.sentAck);
    ComparisonsExact(seqNo + 1, seqNo + 1 + hello);
  }

  // ---------------------------------------------------------------- the object

  datatype Found = Retransmitted | Inserted(n: nat) | NotEnoughSessions

  /** The table works for any bucket function into its buckets; the NIC's is `Bucket`. */
  class Sessions {
    const bin: Tuple -> nat
    var table: Table<Tuple>
    var free: Links                    // free_session_q, head 0
    var freeCnt: int
    var activeCnt: int
    var windows: seq<Window>           // the receive window of every object
    ghost var freeQ: seq<nat>          // the free queue's objects
    ghost var chains: seq<seq<nat>>    // the buckets
    ghost var members: set<nat>        // the active connections

    /** Every pointer of the two link structures is good. */
    ghost predicate Sound()
      reads this
    {
      && Sane(table.links) && Sane(free) && |free.heads| == 1
      && |table.keys| == |table.links.next| == |free.next| == |windows|
      && (forall k: Tuple :: bin(k) < |table.links.heads|)
    }

    ghost predicate Valid()
      reads this
    {
      && Sound()
      && Partition(table, bin, chains, members, freeQ) && Linked(free, 0, freeQ)
      && freeCnt == |freeQ| && activeCnt == table.count
    }

    /** thread_local_init: every object starts in the free queue. */
    constructor (bin: Tuple -> nat, bins: nat, maxConn: nat)
      requires forall k: Tuple :: bin(k) < bins
      ensures Valid() && |table.keys| == maxConn && |chains| == bins && this.bin == bin
      ensures freeCnt == maxConn && activeCnt == 0 && members == {}
    {
      assert bin(Nic.NO_TUPLE) < bins;
      this.bin := bin;
      var empty := Table(Empty(bins, maxConn), seq(maxConn, _ => Nic.NO_TUPLE), 0);
      ghost var buckets: seq<seq<nat>> := seq(bins, _ => []);
      ghost var all: seq<nat> := [];
      var links := Empty(1, maxConn);
      EmptyLinked(1, maxConn, 0);
      var j := 0;
      while j < maxConn
        invariant 0 <= j <= maxConn && |all| == j && (forall i :: 0 <= i < j ==> all[i] == i)
        invariant Linked(links, 0, all) && NoDup(all) && Sane(links) && |links.heads| == 1 && |links.next| == maxConn
      {
        InsertTailLinks(links, 0, all, j);
        InsertSane(links, 0, j);
        links, all := InsertTail(links, 0, j), all + [j];
        j := j + 1;
      }
      NewPartition(empty, bin, buckets, all);
      table := empty;
      free := links;
      freeQ := all;
      freeCnt := maxConn;
      activeCnt := 0;
      windows := seq(maxConn, _ => Window(0, 0, 0, 0));
      chains := buckets;
      members := {};
    }

    /** search_tcp_connection */
    method Lookup(tuple: Tuple) returns (r: Option<nat>)
      requires Valid()
      ensures Answers(table, members, tuple, r)
    {
      r := Search(table, bin, tuple, chains, members);
    }

    /** pop_free_connection and insert_tcp_connection; an empty free queue ends the program. */
    method InsertConnection(tuple: Tuple, cookie: u32, seqNo: u32, len: u16) returns (r: Option<nat>)
      requires Valid() && Absent(table, members, tuple)
      modifies this
      ensures Valid()
      ensures r.None? <==> old(freeQ) == []
      ensures r.None? ==> unchanged(this)
      ensures r.Some? ==>
                && r.value == old(freeQ)[0] < |old(table.keys)| && freeQ == old(freeQ)[1..]
                && table.keys == old(table.keys)[r.value := tuple] && members == old(members) + {r.value}
                && windows == old(windows)[r.value := Opening(cookie, seqNo, len)]
    {
      if free.heads[0].first == NIL {
        return None;
      }
      FirstTaken(tuple);
      var n: nat := free.heads[0].first;
      Take(n, tuple, Opening(cookie, seqNo, len));
      ghost var b := bin(tuple);
      chains, freeQ, members := chains[b := chains[b] + [n]], freeQ[1..], members + {n};
      return Some(n);
    }

    lemma FirstTaken(tuple: Tuple)
      requires Valid() && Absent(table, members, tuple) && freeQ != []
      ensures var n := freeQ[0]; var b := bin(tuple);
              && free.heads[0].first == n < |table.keys| && CanUnlink(free, 0, n) && CanInsert(table.links, b, n)
              && Linked(Unlink(free, 0, n), 0, freeQ[1..]) && b < |chains|
              && Partition(Insert(table, bin, n, tuple), bin, chains[b := chains[b] + [n]], members + {n}, freeQ[1..])
    {
      InsertFirst(table, bin, chains, members, freeQ, tuple);
      UnlinkReady(free, 0, freeQ, 0);
      UnlinkLinks(free, 0, freeQ, 0);
      assert Drop(freeQ, 0) == freeQ[1..];
    }

    /** What the two routines assign. */
    method Take(n: nat, tuple: Tuple, w: Window)
      requires Sound() && n < |table.keys| && CanUnlink(free, 0, n) && CanInsert(table.links, bin(tuple), n)
      modifies this`table, this`free, this`windows, this`activeCnt, this`freeCnt
      ensures Sound() && table == Insert(old(table), bin, n, tuple) && free == Unlink(old(free), 0, n)
      ensures windows == old(windows)[n := w]
      ensures activeCnt == old(activeCnt) + 1 && freeCnt == old(freeCnt) - 1
    {
      UnlinkSane(free, 0, n);
      InsertSane(table.links, bin(tuple), n);
      free, freeCnt := Unlink(free, 0, n), freeCnt - 1;
      table, activeCnt := Insert(table, bin, n, tuple), activeCnt + 1;
      windows := windows[n := w];
    }

    /** remove_session, for any object; without an active session its assertion ends the program. A connection
        moves to the end of the free queue, and the unlinked object still names its old successor. An object
        that is already free leaves no queue behind. */
    method RemoveSession(n: nat) returns (ok: bool)
      requires Sound() && n < |table.keys|
      modifies this
      ensures Sound() && |table.keys| == |old(table.keys)|
      ensures ok <==> old(activeCnt) > 0
      ensures !ok ==> unchanged(this)
      ensures ok ==> freeCnt == old(freeCnt) + 1 && activeCnt == old(activeCnt) - 1
      ensures ok ==> table.keys == old(table.keys)[n := Nic.NO_TUPLE]
      ensures ok ==> windows == old(windows)[n := Window(0, 0, 0, 0)]
      ensures ok ==> free.heads[0].last == Next(n)
      ensures ok && old(free.heads[0].last) == Next(n) ==> Looped(free, 0, n)
      ensures old(Valid()) && n in old(members) ==>
                && ok && Valid() && |chains| == |old(chains)| && bin(old(table.keys)[n]) < |chains|
                && (var b := bin(old(table.keys)[n]); chains == old(chains)[b := Kept(old(chains)[b], {n})])
                && table.links.next[n] == old(table.links.next)[n]
                && freeQ == old(freeQ) + [n] && members == old(members) - {n}
      ensures ok && old(Valid()) && n !in old(members) ==> forall q :: !Linked(free, 0, q)
    {
      ghost var valid, member, b := Valid(), n in members, bin(table.keys[n]);
      if valid && member {
        ConnectionLeaves(n);
      } else if valid {
        FreeTwice(n);
      }
      if activeCnt <= 0 {
        return false;
      }
      Release(n);
      if valid && member {
        chains, freeQ, members := chains[b := Kept(chains[b], {n})], freeQ + [n], members - {n};
      }
      return true;
    }

    /** What remove_session assigns. */
    method Release(n: nat)
      requires Sound() && n < |table.keys|
      modifies this`table, this`free, this`windows, this`activeCnt, this`freeCnt
      ensures Sound() && CanUnlink(old(table.links), bin(old(table.keys)[n]), n) && CanInsert(old(free), 0, n)
      ensures table == Cleared(old(table), n) && free == InsertTail(old(free), 0, n)
      ensures windows == old(windows)[n := Window(0, 0, 0, 0)]
      ensures activeCnt == old(activeCnt) - 1 && freeCnt == old(freeCnt) + 1
      ensures old(free.heads[0].last) == Next(n) ==> Looped(free, 0, n)
    {
      UnlinkSane(table.links, bin(table.keys[n]), n);
      InsertSane(free, 0, n);
      if free.heads[0].last == Next(n) {
        InsertLastAgain(free, 0, n);
      }
      table := Cleared(table, n);
      windows := windows[n := Window(0, 0, 0, 0)];
      activeCnt := activeCnt - 1;
      free := InsertTail(free, 0, n);
      freeCnt := freeCnt + 1;
    }

    /** ht_remove, and the zeroed address fields. */
    function Cleared(t: Table<Tuple>, n: nat): Table<Tuple>
      requires n < |t.keys| && CanUnlink(t.links, bin(t.keys[n]), n)
    {
      Remove(t, bin, n).(keys := t.keys[n := Nic.NO_TUPLE])
    }

    lemma ConnectionLeaves(n: nat)
      requires Valid() && n in members
      ensures n < |table.keys| && bin(table.keys[n]) < |chains| && CanUnlink(table.links, bin(table.keys[n]), n)
      ensures activeCnt > 0 && CanInsert(free, 0, n) && Linked(InsertTail(free, 0, n), 0, freeQ + [n])
      ensures var b := bin(table.keys[n]); var t := Cleared(table, n);
              && Partition(t, bin, chains[b := Kept(chains[b], {n})], members - {n}, freeQ + [n])
              && t.links.next[n] == table.links.next[n] && t.count == table.count - 1
    {
      assert {n} <= members;
      RemovePartition(table, bin, chains, members, freeQ, n);
      InsertTailLinks(free, 0, freeQ, n);
      var b := bin(table.keys[n]);
      FreeKey(Remove(table, bin, n), bin, chains[b := Kept(chains[b], {n})], members - {n}, freeQ + [n], n,
              Nic.NO_TUPLE);
    }

    lemma FreeTwice(n: nat)
      requires Valid() && n !in members && n < |table.keys|
      ensures CanInsert(free, 0, n) && forall q :: !Linked(InsertTail(free, 0, n), 0, q)
    {
      assert n in freeQ;
      forall q
        ensures CanInsert(free, 0, n) && !Linked(InsertTail(free, 0, n), 0, q)
      {
        InsertTwice(free, 0, freeQ, n, q);
      }
    }

    /** abort_session, as often as one payload calls it for its connection: the table and the free queue still
        partition all objects exactly when it was called at most once. */
    method AbortSession(n: nat, removals: nat) returns (ok: bool)
      requires Valid() && n in members
      modifies this
      ensures ok <==> removals <= old(activeCnt)
      ensures ok ==> (Valid() <==> removals <= 1)
    {
      assert Placed(table, bin, chains, n);
      ok := true;
      var i := 0;
      while i < removals && ok
        invariant 0 <= i <= removals && Sound() && n < |table.keys|
        invariant ok ==> activeCnt == old(activeCnt) - i
        invariant !ok ==> i > old(activeCnt)
        invariant i == 0 ==> Valid() && n in members && ok
        invariant ok && i == 1 ==> Valid() && free.heads[0].last == Next(n)
        invariant ok && i > 1 ==> Looped(free, 0, n)
        invariant activeCnt >= 0
        decreases removals - i
      {
        ok := RemoveSession(n);
        i := i + 1;
      }
      if ok && removals > 1 {
        LoopedIsNoQueue(free, 0, n, freeQ);
      }
    }

    /** A payload of connection `n`, whose slot is `c`. If one of its records aborts the session, the slot ends
        cleared, and table and free queue still partition all objects, exactly when every record behind the first
        that aborts is harmless and none is cut off. */
    method ReadPayload(n: nat, c: Nic.Conn, p: Prims, cert: bytes, rs: seq<Rec>, cut: bool)
      returns (ok: bool, c': Nic.Conn)
      requires Valid() && n in members
      modifies this
      ensures c' == FreeSlots.Payload(c, p, cert, rs, cut).c
      ensures ok ==> (Valid() <==> FreeSlots.Payload(c, p, cert, rs, cut).removals <= 1)
      ensures ok ==> forall k :: FreeSlots.FirstAbort(c, p, cert, rs, k) ==>
                (Valid() && FreeSlots.Clear(c') <==> !cut && FreeSlots.AllHarmless(rs[k + 1..]))
    {
      var r := FreeSlots.Payload(c, p, cert, rs, cut);
      c' := r.c;
      ok := AbortSession(n, r.removals);
      forall k | FreeSlots.FirstAbort(c, p, cert, rs, k)
        ensures ok ==> (Valid() && FreeSlots.Clear(c') <==> !cut && FreeSlots.AllHarmless(rs[k + 1..]))
      {
        FreeSlots.PayloadIff(c, p, cert, rs, k, cut);
        FreeSlots.AbortCounts(c, p, cert, rs, k, cut);
      }
    }

    /** process_handshake_packet: an accepted segment moves the window of the tuple's connection. */
    method ProcessSegment(tuple: Tuple, a: Arrival) returns (r: Option<nat>)
      requires Valid()
      modifies this`windows
      ensures Valid() && Answers(table, members, tuple, r)
      ensures windows == if r.Some? then old(windows)[r.value := Accept(old(windows)[r.value], a)] else old(windows)
    {
      r := Lookup(tuple);
      if r.Some? {
        windows := windows[r.value := Accept(windows[r.value], a)];
      }
    }

    /** The last segment accepted from the tuple's connection, or the SYN that opened it, makes this SYN a
        retransmission. */
    ghost predicate Repeats(tuple: Tuple, seqNo: u32)
      reads this
      requires |windows| == |table.keys|
    {
      exists n :: n in members && n < |table.keys| && table.keys[n] == tuple && Retransmits(windows[n], seqNo)
    }

    /** process_syn_packet: a retransmitted SYN changes nothing; a new one replaces the connection, so that
        the tuple then maps to the returned object and every other tuple to what it mapped to before. */
    method ProcessSyn(tuple: Tuple, cookie: u32, seqNo: u32, len: u16) returns (r: Found)
      requires Valid()
      modifies this
      ensures Valid()
      ensures r.Retransmitted? <==> old(Repeats(tuple, seqNo))
      ensures r.NotEnoughSessions? <==> old(Absent(table, members, tuple) && freeQ == [])
      ensures !r.Inserted? ==> unchanged(this)
      ensures r.Inserted? ==> Answers(table, members, tuple, Some(r.n)) && windows[r.n] == Opening(cookie, seqNo, len)
      ensures |table.keys| == |old(table.keys)|
      ensures r.Inserted? ==> forall m: nat :: m < |table.keys| && m != r.n ==>
                && (m in members <==> m in old(members) && old(table.keys)[m] != tuple)
                && (m in members ==> table.keys[m] == old(table.keys)[m] && windows[m] == old(windows)[m])
    {
      var result := Lookup(tuple);
      if result.Some? {
        var n := result.value;
        if Wrap32(seqNo + 1) == windows[n].recvSeq {
          return Retransmitted;
        }
        var ok := RemoveSession(n);
      }
      var inserted := InsertConnection(tuple, cookie, seqNo, len);
      if inserted.None? {
        return NotEnoughSessions;
      }
      return Inserted(inserted.value);
    }

    /** The sweep of the main loop over all buckets. `gone` says which connections remove_hws takes out
        when they are visited; the loop then follows the link the removed object still holds. */
    method Sweep(gone: set<nat>) returns (visited: seq<nat>)
      requires Valid()
      modifies this
      ensures Valid()
      ensures visited == Joined(old(chains))
      ensures |chains| == |old(chains)| && forall b :: 0 <= b < |chains| ==> chains[b] == Kept(old(chains)[b], gone)
    {
      visited := [];
      var b := 0;
      ghost var was := chains;
      while b < |table.links.heads|
        invariant Valid() && 0 <= b <= |table.links.heads| && |was| == |chains|
        invariant visited == Joined(was[..b])
        invariant forall a :: 0 <= a < b ==> chains[a] == Kept(was[a], gone)
        invariant forall a :: b <= a < |chains| ==> chains[a] == was[a]
      {
        var seen := SweepBucket(b, gone);
        JoinedSnoc(was, b);
        visited := visited + seen;
        b := b + 1;
      }
      assert was[..b] == was;
    }

    method SweepBucket(b: nat, gone: set<nat>) returns (visited: seq<nat>)
      requires Valid() && b < |chains|
      modifies this
      ensures Valid()
      ensures visited == old(chains)[b]
      ensures chains == old(chains)[b := Kept(old(chains)[b], gone)]
    {
      visited := [];
      ghost var was := chains[b];
      ghost var i: nat := 0;
      assert BucketOk(table, bin, b, was, members);
      var target := table.links.heads[b].first;
      SweptNone(was, gone);
      while target != NIL
        invariant Valid() && i <= |was| && target == At(was, i) && visited == was[..i]
        invariant chains == old(chains)[b := Swept(was, i, gone)]
        decreases |was| - i
      {
        var here: nat := target;
        visited := visited + [here];
        TakeSnoc(was, i);
        UpdateTwice(old(chains), b, Swept(was, i, gone), Swept(was, i + 1, gone));
        target := SweepOne(b, here, gone, was, i);
        i := i + 1;
      }
      SweptAll(was, gone);
    }

    /** One visit: possibly remove the current connection, then follow its link. */
    method SweepOne(b: nat, target: nat, gone: set<nat>, ghost was: seq<nat>, ghost i: nat) returns (next: int)
      requires Valid() && b < |chains| && NoDup(was)
      requires i < |was| && target == was[i] && chains[b] == Swept(was, i, gone)
      modifies this
      ensures Valid() && next == At(was, i + 1)
      ensures chains == old(chains)[b := Swept(was, i + 1, gone)]
    {
      ghost var p := SweptStep(was, i, gone);
      assert BucketOk(table, bin, b, chains[b], members);
      BucketMembers(table, bin, b, chains[b], members);
      assert NodeOk(table.links, b, chains[b], p) && chains[b][p] in chains[b];
      if target in gone {
        var ok := RemoveSession(target);
      } else {
        assert chains == old(chains)[b := Swept(was, i + 1, gone)];
      }
      next := table.links.next[target];
    }
  }

  // ---------------------------------------------------------------- bookkeeping

  lemma TakeSnoc(s: seq<nat>, i: nat)
    requires i < |s|
    ensures s[..i + 1] == s[..i] + [s[i]]
  {}

  lemma UpdateTwice(c: seq<seq<nat>>, b: nat, x: seq<nat>, y: seq<nat>)
    requires b < |c|
    ensures c[b := x][b := y] == c[b := y]
  {}

  function Elements(s: seq<nat>): set<nat>
  {
    set x | x in s
  }

  /** The bucket when the sweep has visited its first `i` objects. */
  function Swept(was: seq<nat>, i: nat, gone: set<nat>): seq<nat>
    requires i <= |was|
  {
    Kept(was, gone * Elements(was[..i]))
  }

  lemma SweptNone(was: seq<nat>, gone: set<nat>)
    ensures Swept(was, 0, gone) == was
  {
    KeptAll(was, {});
    assert gone * Elements(was[..0]) == {};
  }

  lemma {:induction false} SweptAll(was: seq<nat>, gone: set<nat>)
    ensures was[..|was|] == was && Swept(was, |was|, gone) == Kept(was, gone)
  {
    KeptMeets(was, gone, Elements(was));
    assert was[..|was|] == was;
  }

  lemma {:induction false} KeptMeets(chain: seq<nat>, gone: set<nat>, all: set<nat>)
    requires forall x :: x in chain ==> x in all
    ensures Kept(chain, gone * all) == Kept(chain, gone)
  {
    if chain != [] {
      assert chain[0] in chain;
      KeptMeets(chain[1..], gone, all);
    }
  }

  /** Where the sweep stands in the shrinking bucket: the object it visits next is still followed by the
      object that followed it at the start. */
  lemma SweptStep(was: seq<nat>, i: nat, gone: set<nat>) returns (p: nat)
    requires i < |was| && NoDup(was)
    ensures var now := Swept(was, i, gone);
            && p < |now| && now[p] == was[i] && At(now, p + 1) == At(was, i + 1)
            && Swept(was, i + 1, gone) == if was[i] in gone then Kept(now, {was[i]}) else now
  {
    var done := gone * Elements(was[..i]);
    assert was == was[..i] + was[i..];
    KeptAppend(was[..i], was[i..], done);
    KeptAll(was[i..], done);
    p := |Kept(was[..i], done)|;
    KeptTwice(was, done, {was[i]});
    TakeSnoc(was, i);
    var done' := gone * Elements(was[..i + 1]);
    assert done' == if was[i] in gone then done + {was[i]} else done;
  }

  function Joined(chains: seq<seq<nat>>): seq<nat>
  {
    if chains == [] then [] else Joined(chains[..|chains| - 1]) + chains[|chains| - 1]
  }

  lemma JoinedSnoc(chains: seq<seq<nat>>, b: nat)
    requires b < |chains|
    ensures Joined(chains[..b + 1]) == Joined(chains[..b]) + chains[b]
  {
    assert chains[..b + 1][..b] == chains[..b];
  }

  /** The buckets one after another list every active connection exactly once. */
  lemma SweepVisitsEachOnce(t: Table<Tuple>, bin: Tuple -> nat, chains: seq<seq<nat>>, members: set<nat>)
    requires Represents(t, bin, chains, members)
    ensures NoDup(Joined(chains))
    ensures forall n: nat :: n in Joined(chains) <==> n in members
  {
    assert chains[..|chains|] == chains;
    JoinedOnce(t, bin, chains, members, |chains|);
    forall n: nat
      ensures n in Joined(chains) <==> n in members
    {
      if n in members {
        assert Placed(t, bin, chains, n);
      }
    }
  }

  lemma {:induction false} JoinedOnce(t: Table<Tuple>, bin: Tuple -> nat, chains: seq<seq<nat>>, members: set<nat>,
                                      b: nat)
    requires Represents(t, bin, chains, members) && b <= |chains|
    ensures NoDup(Joined(chains[..b]))
    ensures forall n: nat :: n in Joined(chains[..b]) <==> n in members && n < |t.keys| && bin(t.keys[n]) < b
    decreases b
  {
    if b > 0 {
      var front, last := Joined(chains[..b - 1]), chains[b - 1];
      JoinedOnce(t, bin, chains, members, b - 1);
      JoinedSnoc(chains, b - 1);
      InBucket(t, bin, chains, members, b - 1);
      NoDupConcat(front, last);
    }
  }

  lemma InBucket(t: Table<Tuple>, bin: Tuple -> nat, chains: seq<seq<nat>>, members: set<nat>, b: nat)
    requires Represents(t, bin, chains, members) && b < |chains|
    ensures NoDup(chains[b])
    ensures forall n: nat :: n in chains[b] <==> n in members && n < |t.keys| && bin(t.keys[n]) == b
  {
    assert BucketOk(t, bin, b, chains[b], members);
    BucketMembers(t, bin, b, chains[b], members);
    forall n: nat
      ensures n in chains[b] <==> n in members && n < |t.keys| && bin(t.keys[n]) == b
    {
      if n in members {
        assert Placed(t, bin, chains, n);
      }
    }
  }

  lemma NoDupConcat(a: seq<nat>, b: seq<nat>)
    requires NoDup(a) && NoDup(b) && forall x: nat :: x in a ==> x !in b
    ensures NoDup(a + b)
  {
    var c := a + b;
    forall i, j | 0 <= i < j < |c|
      ensures c[i] != c[j]
    {
      if i < |a| && j >= |a| {
        assert a[i] in a && b[j - |a|] in b;
      }
    }
  }
}
