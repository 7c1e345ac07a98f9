/** The chained hash table of both fhash.c files: buckets are tail queues threaded through the connection
    objects, which are numbered. The bucket function is a parameter; `Hash` gives the two that are used. */
module Table {
  import opened Bytes
  import opened Tailq

  /** `keys` holds the address fields of every object, in the table or not. */
  datatype Table<Key> = Table(links: Links, keys: seq<Key>, count: int)

  // ---------------------------------------------------------------- operations

  /** ht_insert of object `n`, whose address fields have just been set to `key`. */
  function Insert<Key>(t: Table<Key>, bin: Key -> nat, n: nat, key: Key): Table<Key>
    requires n < |t.keys| && CanInsert(t.links, bin(key), n)
  {
    Table(InsertTail(t.links, bin(key), n), t.keys[n := key], t.count + 1)
  }

  /** ht_remove */
  function Remove<Key>(t: Table<Key>, bin: Key -> nat, n: nat): Table<Key>
    requires n < |t.keys| && CanUnlink(t.links, bin(t.keys[n]), n)
  {
    t.(links := Unlink(t.links, bin(t.keys[n]), n), count := t.count - 1)
  }

  // ---------------------------------------------------------------- what the table represents

  /** Bucket `b` is linked as `chain`, which holds objects of the table that hash to it. */
  ghost predicate BucketOk<Key>(t: Table<Key>, bin: Key -> nat, b: nat, chain: seq<nat>, members: set<nat>)
  {
    && Linked(t.links, b, chain) && NoDup(chain)
    && forall i {:trigger Member(t, bin, b, chain, members, i)} ::
         0 <= i < |chain| ==> Member(t, bin, b, chain, members, i)
  }

  ghost predicate Member<Key>(t: Table<Key>, bin: Key -> nat, b: nat, chain: seq<nat>, members: set<nat>, i: nat)
    requires i < |chain|
  {
    chain[i] in members && chain[i] < |t.keys| && bin(t.keys[chain[i]]) == b
  }

  /** An object of the table is in the bucket of its own key. */
  ghost predicate Placed<Key>(t: Table<Key>, bin: Key -> nat, chains: seq<seq<nat>>, n: nat)
  {
    n < |t.keys| && bin(t.keys[n]) < |chains| && n in chains[bin(t.keys[n])]
  }

  /** The buckets hold exactly the objects `members`, chained as `chains`. */
  ghost predicate Chained<Key>(t: Table<Key>, bin: Key -> nat, chains: seq<seq<nat>>, members: set<nat>)
  {
    && |chains| == |t.links.heads| && |t.keys| == |t.links.next| == |t.links.prev|
    && (forall b {:trigger BucketOk(t, bin, b, chains[b], members)} ::
          0 <= b < |chains| ==> BucketOk(t, bin, b, chains[b], members))
    && (forall n {:trigger Placed(t, bin, chains, n)} :: n in members ==> Placed(t, bin, chains, n))
  }

  ghost predicate Represents<Key>(t: Table<Key>, bin: Key -> nat, chains: seq<seq<nat>>, members: set<nat>)
  {
    Chained(t, bin, chains, members) && t.count == |members|
  }

  lemma BucketMembers<Key>(t: Table<Key>, bin: Key -> nat, b: nat, chain: seq<nat>, members: set<nat>)
    requires BucketOk(t, bin, b, chain, members)
    ensures forall x :: x in chain ==> x in members && x < |t.keys| && bin(t.keys[x]) == b
  {
    forall x | x in chain
      ensures x in members && x < |t.keys| && bin(t.keys[x]) == b
    {
      var i :| 0 <= i < |chain| && chain[i] == x;
      assert Member(t, bin, b, chain, members, i);
    }
  }

  /** A well-linked chain of the right objects is a bucket. */
  lemma IsBucket<Key>(t: Table<Key>, bin: Key -> nat, b: nat, chain: seq<nat>, members: set<nat>)
    requires Linked(t.links, b, chain) && NoDup(chain)
    requires forall x :: x in chain ==> x in members && x < |t.keys| && bin(t.keys[x]) == b
    ensures BucketOk(t, bin, b, chain, members)
  {
    forall i | 0 <= i < |chain|
      ensures Member(t, bin, b, chain, members, i)
    {
      assert chain[i] in chain;
    }
  }

  /** Insertion appends the object to its bucket and leaves the others alone. */
  lemma InsertRepresents<Key>(t: Table<Key>, bin: Key -> nat, chains: seq<seq<nat>>, members: set<nat>, n: nat,
                              key: Key)
    requires Represents(t, bin, chains, members) && n < |t.keys| && bin(key) < |chains| && n !in members
    ensures CanInsert(t.links, bin(key), n)
    ensures Represents(Insert(t, bin, n, key), bin, chains[bin(key) := chains[bin(key)] + [n]], members + {n})
  {
    var k := bin(key);
    assert BucketOk(t, bin, k, chains[k], members);
    BucketMembers(t, bin, k, chains[k], members);
    InsertTailLinks(t.links, k, chains[k], n);
    var t' := Insert(t, bin, n, key);
    var chains' := chains[k := chains[k] + [n]];
    forall b | 0 <= b < |chains'|
      ensures BucketOk(t', bin, b, chains'[b], members + {n})
    {
      assert BucketOk(t, bin, b, chains[b], members);
      BucketMembers(t, bin, b, chains[b], members);
      if b != k {
        InsertTailElsewhere(t.links, k, chains[k], n, b, chains[b]);
        OtherLinked(t.links, t'.links, b, chains[b]);
      }
      IsBucket(t', bin, b, chains'[b], members + {n});
    }
    forall m | m in members + {n}
      ensures Placed(t', bin, chains', m)
    {
      if m != n {
        assert Placed(t, bin, chains, m);
      }
    }
  }

  /** Removal takes exactly the object out of its bucket; its stale link names its old successor. */
  lemma RemoveRepresents<Key>(t: Table<Key>, bin: Key -> nat, chains: seq<seq<nat>>, members: set<nat>, k: nat, i: nat)
    requires Represents(t, bin, chains, members) && k < |chains| && i < |chains[k]|
    ensures var n := chains[k][i];
            && n in members && n < |t.keys| && bin(t.keys[n]) == k && CanUnlink(t.links, k, n)
            && Represents(Remove(t, bin, n), bin, chains[k := Drop(chains[k], i)], members - {n})
            && Remove(t, bin, n).links.next[n] == At(chains[k], i + 1)
  {
    var n := chains[k][i];
    assert BucketOk(t, bin, k, chains[k], members);
    BucketMembers(t, bin, k, chains[k], members);
    UnlinkReady(t.links, k, chains[k], i);
    UnlinkLinks(t.links, k, chains[k], i);
    var chains' := chains[k := Drop(chains[k], i)];
    DropMembers(chains[k], i);
    forall b | 0 <= b < |chains'|
      ensures BucketOk(Remove(t, bin, n), bin, b, chains'[b], members - {n})
    {
      RemoveBucket(t, bin, chains, members, k, i, b);
    }
    forall m | m in members - {n}
      ensures Placed(Remove(t, bin, n), bin, chains', m)
    {
      assert Placed(t, bin, chains, m);
    }
  }

  lemma RemoveBucket<Key>(t: Table<Key>, bin: Key -> nat, chains: seq<seq<nat>>, members: set<nat>, k: nat, i: nat,
                          b: nat)
    requires Represents(t, bin, chains, members) && k < |chains| && i < |chains[k]| && b < |chains|
    requires var n := chains[k][i]; n < |t.keys| && bin(t.keys[n]) == k && CanUnlink(t.links, k, n)
    ensures var n := chains[k][i];
            BucketOk(Remove(t, bin, n), bin, b, chains[k := Drop(chains[k], i)][b], members - {n})
  {
    var n := chains[k][i];
    var t' := Remove(t, bin, n);
    assert BucketOk(t, bin, k, chains[k], members) && BucketOk(t, bin, b, chains[b], members);
    BucketMembers(t, bin, k, chains[k], members);
    BucketMembers(t, bin, b, chains[b], members);
    assert n in chains[k];
    if b == k {
      UnlinkLinks(t.links, k, chains[k], i);
      DropMembers(chains[k], i);
      IsBucket(t', bin, b, Drop(chains[k], i), members - {n});
    } else {
      UnlinkElsewhere(t.links, k, chains[k], i, b, chains[b]);
      OtherLinked(t.links, t'.links, b, chains[b]);
      IsBucket(t', bin, b, chains[b], members - {n});
    }
  }

  // ---------------------------------------------------------------- table and free objects together

  /** The free collection lists exactly the objects outside the table, each once. */
  ghost predicate FreeExact(members: set<nat>, size: nat, free: seq<nat>)
  {
    NoDup(free) && forall n: nat :: n in free <==> n < size && n !in members
  }

  ghost predicate UniqueKeys<Key>(t: Table<Key>, members: set<nat>)
  {
    forall m, n :: m in members && n in members && m < |t.keys| && n < |t.keys| && t.keys[m] == t.keys[n] ==> m == n
  }

  /** The table and a collection of free objects partition all objects; keys in the table are unique. */
  ghost predicate Partition<Key(!new)>(t: Table<Key>, bin: Key -> nat, chains: seq<seq<nat>>, members: set<nat>,
                                       free: seq<nat>)
  {
    && Represents(t, bin, chains, members) && (forall k: Key :: bin(k) < |chains|)
    && UniqueKeys(t, members) && FreeExact(members, |t.keys|, free)
    && |free| + t.count == |t.keys|
  }

  /** No object of the table has this key. */
  ghost predicate Absent<Key>(t: Table<Key>, members: set<nat>, key: Key)
  {
    forall n :: n in members && n < |t.keys| ==> t.keys[n] != key
  }

  lemma InsertFree(members: set<nat>, size: nat, free: seq<nat>, n: nat)
    requires FreeExact(members, size, free) && n in free
    ensures FreeExact(members + {n}, size, Kept(free, {n})) && |Kept(free, {n})| == |free| - 1
  {
    KeptWithout(free, n);
  }

  lemma InsertUnique<Key>(t: Table<Key>, t': Table<Key>, members: set<nat>, n: nat, key: Key)
    requires UniqueKeys(t, members) && Absent(t, members, key) && n < |t.keys| && t'.keys == t.keys[n := key]
    ensures UniqueKeys(t', members + {n})
  {}

  /** Taking an object from the free collection and inserting it under a new key. */
  lemma InsertPartition<Key(!new)>(t: Table<Key>, bin: Key -> nat, chains: seq<seq<nat>>, members: set<nat>,
                                   free: seq<nat>, n: nat, key: Key)
    requires Partition(t, bin, chains, members, free) && n in free && Absent(t, members, key)
    ensures n < |t.keys| && CanInsert(t.links, bin(key), n)
    ensures Partition(Insert(t, bin, n, key), bin, chains[bin(key) := chains[bin(key)] + [n]], members + {n},
                      Kept(free, {n}))
  {
    InsertRepresents(t, bin, chains, members, n, key);
    InsertFree(members, |t.keys|, free, n);
    InsertUnique(t, Insert(t, bin, n, key), members, n, key);
  }

  /** The same, from the front of a queue. */
  lemma InsertFirst<Key(!new)>(t: Table<Key>, bin: Key -> nat, chains: seq<seq<nat>>, members: set<nat>,
                               free: seq<nat>, key: Key)
    requires Partition(t, bin, chains, members, free) && free != [] && Absent(t, members, key)
    ensures free[0] < |t.keys| && CanInsert(t.links, bin(key), free[0])
    ensures Partition(Insert(t, bin, free[0], key), bin, chains[bin(key) := chains[bin(key)] + [free[0]]],
                      members + {free[0]}, free[1..])
  {
    InsertPartition(t, bin, chains, members, free, free[0], key);
    KeptHead(free);
  }

  /** Removing an object and adding it to the end of the free collection. */
  lemma RemovePartition<Key(!new)>(t: Table<Key>, bin: Key -> nat, chains: seq<seq<nat>>, members: set<nat>,
                                   free: seq<nat>, n: nat)
    requires Partition(t, bin, chains, members, free) && n in members
    ensures n < |t.keys| && bin(t.keys[n]) < |chains| && CanUnlink(t.links, bin(t.keys[n]), n)
    ensures var b := bin(t.keys[n]);
            && Partition(Remove(t, bin, n), bin, chains[b := Kept(chains[b], {n})], members - {n}, free + [n])
            && Remove(t, bin, n).links.next[n] == t.links.next[n]
  {
    assert Placed(t, bin, chains, n);
    var b := bin(t.keys[n]);
    var i :| 0 <= i < |chains[b]| && chains[b][i] == n;
    RemoveRepresents(t, bin, chains, members, b, i);
    assert BucketOk(t, bin, b, chains[b], members) && NodeOk(t.links, b, chains[b], i);
    DropIsKept(chains[b], i);
    assert n !in free;
  }

  /** What a second ht_remove of the same object does, when its address fields have meanwhile become `key`: the
      count is off by one, and the buckets stay as the first removal left them exactly when the object had a
      successor in its bucket or the new key hashes to that bucket too. Otherwise the tail pointer of another
      bucket ends up in the object's old one. */
  lemma RemoveTwice<Key(!new)>(t: Table<Key>, bin: Key -> nat, chains: seq<seq<nat>>, members: set<nat>, free: seq<nat>,
                               n: nat, key: Key)
    requires Partition(t, bin, chains, members, free) && n in members
    ensures n < |t.keys| && bin(t.keys[n]) < |chains| && CanUnlink(t.links, bin(t.keys[n]), n)
    ensures var t1 := Remove(t, bin, n).(keys := t.keys[n := key]);
            && bin(key) < |chains| && CanUnlink(t1.links, bin(key), n)
            && var t2 := Remove(t1, bin, n);
               var b := bin(t.keys[n]);
               var chains' := chains[b := Kept(chains[b], {n})];
               && t2.count == |members - {n}| - 1
               && (Chained(t2, bin, chains', members - {n}) <==> t.links.next[n] != NIL || bin(key) == b)
               && (t.links.next[n] == NIL && bin(key) != b ==> t2.links.heads[bin(key)].last == t2.links.heads[b].last)
  {
    assert Placed(t, bin, chains, n);
    var b := bin(t.keys[n]);
    var chain := chains[b];
    var i :| 0 <= i < |chain| && chain[i] == n;
    assert BucketOk(t, bin, b, chain, members) && NodeOk(t.links, b, chain, i);
    RemovePartition(t, bin, chains, members, free, n);
    UnlinkTwice(t.links, b, chain, i, bin(key));
    var t0 := Remove(t, bin, n);
    var chains' := chains[b := Kept(chain, {n})];
    FreeKey(t0, bin, chains', members - {n}, free + [n], n, key);
    var t1 := t0.(keys := t.keys[n := key]);
    var t2 := Remove(t1, bin, n);
    if i + 1 < |chain| {
      SameBuckets(t1, t2, bin, chains', members - {n});
    } else {
      TailMoved(t1, t2, bin, chains', members - {n}, b, bin(key));
    }
  }

  lemma SameBuckets<Key>(t: Table<Key>, t': Table<Key>, bin: Key -> nat, chains: seq<seq<nat>>, members: set<nat>)
    requires Chained(t, bin, chains, members) && t'.links == t.links && t'.keys == t.keys
    ensures Chained(t', bin, chains, members)
  {
    forall b | 0 <= b < |chains|
      ensures BucketOk(t', bin, b, chains[b], members)
    {
      assert BucketOk(t, bin, b, chains[b], members);
      BucketMembers(t, bin, b, chains[b], members);
      IsBucket(t', bin, b, chains[b], members);
    }
    forall n | n in members
      ensures Placed(t', bin, chains, n)
    {
      assert Placed(t, bin, chains, n);
    }
  }

  lemma TailMoved<Key>(t: Table<Key>, t': Table<Key>, bin: Key -> nat, chains: seq<seq<nat>>, members: set<nat>,
                       b: nat, a: nat)
    requires Chained(t, bin, chains, members) && b < |chains| && a < |chains| && t'.keys == t.keys
    requires t'.links == t.links.(heads := t.links.heads[a := t.links.heads[a].(last := t.links.heads[b].last)])
    ensures Chained(t', bin, chains, members) <==> a == b
  {
    assert BucketOk(t, bin, a, chains[a], members) && BucketOk(t, bin, b, chains[b], members);
    if a == b {
      assert t'.links == t.links;
      SameBuckets(t, t', bin, chains, members);
    } else {
      BucketMembers(t, bin, a, chains[a], members);
      BucketMembers(t, bin, b, chains[b], members);
      if chains[a] != [] {
        assert chains[a][|chains[a]| - 1] in chains[a];
      }
      if chains[b] != [] {
        assert chains[b][|chains[b]| - 1] in chains[b];
      }
      assert Before(a, chains[a], |chains[a]|) != Before(b, chains[b], |chains[b]|);
      assert !BucketOk(t', bin, a, chains[a], members);
    }
  }

  /** The key of an object outside the table does not matter. */
  lemma FreeKey<Key(!new)>(t: Table<Key>, bin: Key -> nat, chains: seq<seq<nat>>, members: set<nat>, free: seq<nat>,
                           n: nat, key: Key)
    requires Partition(t, bin, chains, members, free) && n < |t.keys| && n !in members
    ensures Partition(t.(keys := t.keys[n := key]), bin, chains, members, free)
  {
    var t' := t.(keys := t.keys[n := key]);
    forall b | 0 <= b < |chains|
      ensures BucketOk(t', bin, b, chains[b], members)
    {
      assert BucketOk(t, bin, b, chains[b], members);
      BucketMembers(t, bin, b, chains[b], members);
      IsBucket(t', bin, b, chains[b], members);
    }
    forall m | m in members
      ensures Placed(t', bin, chains, m)
    {
      assert Placed(t, bin, chains, m);
    }
  }

  lemma NewPartition<Key(!new)>(t: Table<Key>, bin: Key -> nat, chains: seq<seq<nat>>, free: seq<nat>)
    requires forall k: Key :: bin(k) < |chains|
    requires |t.keys| == |free| && t.links == Empty(|chains|, |free|) && t.count == 0
    requires forall b :: 0 <= b < |chains| ==> chains[b] == []
    requires forall i :: 0 <= i < |free| ==> free[i] == i
    ensures Partition(t, bin, chains, {}, free)
  {
    forall n: nat
      ensures n in free <==> n < |t.keys|
    {
      if n < |free| {
        assert free[n] == n;
      }
    }
  }

  // ---------------------------------------------------------------- search

  /** What a scan of all active objects, in any order, for the first with this key finds. */
  function Scan<Key(==)>(active: seq<nat>, keys: seq<Key>, key: Key): Option<nat>
  {
    if active == [] then None
    else if active[0] < |keys| && keys[active[0]] == key then Some(active[0])
    else Scan(active[1..], keys, key)
  }

  /** The answer to a lookup: the object with this key, or the absence of one. */
  ghost predicate Answers<Key>(t: Table<Key>, members: set<nat>, key: Key, r: Option<nat>)
  {
    match r
    case Some(n) => n in members && n < |t.keys| && t.keys[n] == key
    case None => Absent(t, members, key)
  }

  /** ht_search */
  method Search<Key(==)>(t: Table<Key>, bin: Key -> nat, key: Key, ghost chains: seq<seq<nat>>, ghost members: set<nat>)
    returns (r: Option<nat>)
    requires Represents(t, bin, chains, members) && bin(key) < |chains|
    ensures Answers(t, members, key, r)
  {
    var b := bin(key);
    ghost var chain := chains[b];
    assert BucketOk(t, bin, b, chain, members);
    BucketMembers(t, bin, b, chain, members);
    var walk := t.links.heads[b].first;
    ghost var i := 0;
    while walk != NIL
      invariant 0 <= i <= |chain| && walk == At(chain, i)
      invariant forall j :: 0 <= j < i ==> chain[j] < |t.keys| && t.keys[chain[j]] != key
      decreases |chain| - i
    {
      assert NodeOk(t.links, b, chain, i) && chain[i] in chain;
      if t.keys[walk] == key {
        return Some(walk);
      }
      walk := t.links.next[walk];
      i := i + 1;
    }
    forall n | n in members && n < |t.keys|
      ensures t.keys[n] != key
    {
      assert Placed(t, bin, chains, n);
      if bin(t.keys[n]) == b {
        var j :| 0 <= j < |chain| && chain[j] == n;
      }
    }
    return None;
  }

  lemma {:induction false} ScanFinds<Key>(active: seq<nat>, keys: seq<Key>, key: Key)
    ensures var r := Scan(active, keys, key);
            && (r.Some? ==> r.value in active && r.value < |keys| && keys[r.value] == key)
            && (r.None? ==> forall n :: n in active && n < |keys| ==> keys[n] != key)
  {
    if active != [] {
      ScanFinds(active[1..], keys, key);
      assert active == [active[0]] + active[1..];
    }
  }

  /** The table answers like a scan of the active list it replaces. */
  lemma SearchIsScan<Key>(t: Table<Key>, members: set<nat>, active: seq<nat>, key: Key, r: Option<nat>)
    requires UniqueKeys(t, members) && Answers(t, members, key, r)
    requires forall n :: n in active <==> n in members
    ensures r == Scan(active, t.keys, key)
  {
    ScanFinds(active, t.keys, key);
  }
}
