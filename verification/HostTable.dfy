/** A host worker's connections: the object pool, the connection table, and the sequences of key metas,
    failed migrations and closes that use them. */
module HostTable {
  import opened Bytes
  import opened Tailq
  import opened Table
  import opened Migration
  import Hash

  function Reversed(b: bytes): bytes
  {
    if b == [] then [] else Reversed(b[1..]) + [b[0]]
  }

  /** The bucket function of the host's table: address and port were converted to host byte order. */
  function Bucket(c: Client): (b: nat)
    ensures b < Hash.NUM_BINS
  {
    Hash.Bin(Reversed(U32(c.ip)) + Reversed(U16(c.port)))
  }

  datatype KeyReply = MigFinSent(n: nat) | NoObject | KeptUnmigrated(n: nat) | MigrationFailed | Entered(n: nat)

  /** An array-backed stack: `pool[..top + 1]` are the free objects. */
  class Connections {
    const bin: Client -> nat
    const pool: array<nat>
    var top: int
    var table: Table<Client>
    ghost var chains: seq<seq<nat>>
    ghost var members: set<nat>

    ghost predicate Valid()
      reads this, pool
    {
      && -1 <= top < pool.Length == |table.keys|
      && Partition(table, bin, chains, members, pool[..top + 1])
    }

    /** conn_pool_init: every object is pushed once. */
    constructor (bin: Client -> nat, bins: nat, maxConn: nat)
      requires forall k: Client :: bin(k) < bins
      ensures Valid() && fresh(pool) && pool.Length == maxConn && members == {} && top == maxConn - 1 && this.bin == bin
    {
      this.bin := bin;
      var empty := Table(Empty(bins, maxConn), seq(maxConn, _ => Client(0, 0)), 0);
      ghost var buckets: seq<seq<nat>> := seq(bins, _ => []);
      table := empty;
      chains := buckets;
      members := {};
      pool := new nat[maxConn](i => i);
      top := maxConn - 1;
      new;
      assert pool[..top + 1] == pool[..];
      NewPartition(empty, bin, buckets, pool[..]);
    }

    /** conn_state_alloc followed by ht_insert, with the key already in the object. */
    method AllocAndInsert(key: Client) returns (r: Option<nat>)
      requires Valid() && Absent(table, members, key)
      modifies this
      ensures Valid()
      ensures r.None? <==> old(top) < 0
      ensures r.None? ==> unchanged(this)
      ensures r.Some? ==>
                && r.value !in old(members) && r.value < |old(table.keys)|
                && members == old(members) + {r.value} && top == old(top) - 1
                && table.keys == old(table.keys)[r.value := key]
    {
      if top < 0 {
        return None;
      }
      var n := pool[top];
      ghost var free := pool[..top + 1];
      assert free[|free| - 1] == n && n in free;
      InsertLast(table, bin, chains, members, free, key);
      assert free[..|free| - 1] == pool[..top];
      ghost var buckets := chains[bin(key) := chains[bin(key)] + [n]];
      top := top - 1;
      table, chains, members := Insert(table, bin, n, key), buckets, members + {n};
      return Some(n);
    }

    /** ht_remove followed by conn_state_free. */
    method RemoveAndFree(n: nat)
      requires Valid() && n in members
      modifies this, pool
      ensures Valid() && members == old(members) - {n} && table.keys == old(table.keys) && top == old(top) + 1
    {
      RemovePartition(table, bin, chains, members, pool[..top + 1], n);
      PoolHasRoom(table, bin, chains, members, pool[..top + 1], n);
      ghost var b := bin(table.keys[n]);
      table, chains, members := Remove(table, bin, n), chains[b := Kept(chains[b], {n})], members - {n};
      ghost var free := pool[..top + 1];
      top := top + 1;
      pool[top] := n;
      assert pool[..top + 1] == free + [n];
    }

    /** handle_key_packet. A failed set_nonblock leaves the new connection in the table. */
    method HandleKeyPacket(key: Client, outcome: Outcome) returns (r: KeyReply)
      requires Valid()
      modifies this, pool
      ensures Valid()
      ensures r.MigFinSent? <==> !old(Absent(table, members, key))
      ensures r.NoObject? <==> old(Absent(table, members, key)) && old(top) < 0
      ensures r.KeptUnmigrated? <==> old(Absent(table, members, key)) && old(top) >= 0 && outcome == NonblockFails
      ensures r.MigrationFailed? <==> old(Absent(table, members, key)) && old(top) >= 0 && outcome == TcpFails
      ensures r.Entered? <==> old(Absent(table, members, key)) && old(top) >= 0 && outcome == Migrated
      ensures r.MigFinSent? ==> unchanged(this) && r.n in members && r.n < |table.keys| && table.keys[r.n] == key
      ensures r.NoObject? ==> unchanged(this)
      ensures r.MigrationFailed? ==> members == old(members) && |table.keys| == |old(table.keys)|
      ensures r.MigrationFailed? ==>
                forall m :: m in members && m < |table.keys| ==> table.keys[m] == old(table.keys)[m]
      ensures r.KeptUnmigrated? || r.Entered? ==>
                && r.n !in old(members) && members == old(members) + {r.n}
                && r.n < |old(table.keys)| && table.keys == old(table.keys)[r.n := key]
    {
      var existing := Search(table, bin, key, chains, members);
      if existing.Some? {
        return MigFinSent(existing.value);
      }
      var taken := AllocAndInsert(key);
      if taken.None? {
        return NoObject;
      }
      var n := taken.value;
      match outcome
      case NonblockFails =>
        r := KeptUnmigrated(n);
      case TcpFails =>
        RemoveAndFree(n);
        r := MigrationFailed;
      case Migrated =>
        r := Entered(n);
    }

    /** close_tcp_conn of a connection in the table. */
    method CloseTcpConn(n: nat)
      requires Valid() && n in members
      modifies this, pool
      ensures Valid() && members == old(members) - {n} && table.keys == old(table.keys)
    {
      assert Placed(table, bin, chains, n);
      var found := Search(table, bin, table.keys[n], chains, members);
      if found.Some? {
        RemoveAndFree(n);
      }
    }
  }

  /** Allocation takes the top of the stack. */
  lemma InsertLast(t: Table<Client>, bin: Client -> nat, chains: seq<seq<nat>>, members: set<nat>, free: seq<nat>,
                   key: Client)
    requires Partition(t, bin, chains, members, free) && free != [] && Absent(t, members, key)
    ensures var n := free[|free| - 1];
            && n !in members && n < |t.keys| && CanInsert(t.links, bin(key), n)
            && Partition(Insert(t, bin, n, key), bin, chains[bin(key) := chains[bin(key)] + [n]], members + {n},
                         free[..|free| - 1])
  {
    var n := free[|free| - 1];
    assert n in free;
    InsertPartition(t, bin, chains, members, free, n, key);
    KeptLast(free);
  }

  /** While an object is live the stack is not full. */
  lemma PoolHasRoom(t: Table<Client>, bin: Client -> nat, chains: seq<seq<nat>>, members: set<nat>, free: seq<nat>,
                    n: nat)
    requires Partition(t, bin, chains, members, free) && n in members
    ensures |free| < |t.keys|
  {
    assert |members| > 0 by {
      assert {n} <= members;
    }
  }
}
