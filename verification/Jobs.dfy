/** Lists of PKA jobs: at most one per session, and how many of a core. */
module Jobs {
  import opened Handshake

  datatype Job = Job(core: nat, sid: nat, op: Opcode)

  predicate SameSession(a: Job, b: Job)
  {
    a.core == b.core && a.sid == b.sid
  }

  ghost predicate Distinct(jobs: seq<Job>)
  {
    forall i, k :: 0 <= i < k < |jobs| ==> !SameSession(jobs[i], jobs[k])
  }

  function CountOf(jobs: seq<Job>, c: nat): nat
  {
    if jobs == [] then 0 else (if jobs[0].core == c then 1 else 0) + CountOf(jobs[1..], c)
  }

  function Without(jobs: seq<Job>, k: nat): seq<Job>
    requires k < |jobs|
  {
    jobs[..k] + jobs[k + 1..]
  }

  lemma {:induction false} CountSplit(a: seq<Job>, b: seq<Job>, c: nat)
    ensures CountOf(a + b, c) == CountOf(a, c) + CountOf(b, c)
    decreases |a|
  {
    if a == [] {
      assert a + b == b;
    } else {
      assert (a + b)[1..] == a[1..] + b;
      CountSplit(a[1..], b, c);
    }
  }

  lemma CountOne(j: Job, c: nat)
    ensures CountOf([j], c) == if j.core == c then 1 else 0
  {}

  lemma CountWithout(jobs: seq<Job>, k: nat, c: nat)
    requires k < |jobs|
    ensures CountOf(Without(jobs, k), c) == CountOf(jobs, c) - (if jobs[k].core == c then 1 else 0)
  {
    assert jobs == jobs[..k] + ([jobs[k]] + jobs[k + 1..]);
    CountSplit(jobs[..k], [jobs[k]] + jobs[k + 1..], c);
    CountSplit([jobs[k]], jobs[k + 1..], c);
    CountSplit(jobs[..k], jobs[k + 1..], c);
    CountOne(jobs[k], c);
  }

  /** Distinct numbers below n are at most n many. */
  lemma {:induction false} Pigeonhole(xs: seq<nat>, n: nat)
    requires forall i :: 0 <= i < |xs| ==> xs[i] < n
    requires forall i, k :: 0 <= i < k < |xs| ==> xs[i] != xs[k]
    ensures |xs| <= n
    decreases n
  {
    if xs == [] {
    } else if k :| 0 <= k < |xs| && xs[k] == n - 1 {
      var ys := xs[..k] + xs[k + 1..];
      assert forall i :: 0 <= i < |ys| ==> ys[i] == (if i < k then xs[i] else xs[i + 1]);
      Pigeonhole(ys, n - 1);
    } else {
      assert xs[0] < n;
      Pigeonhole(xs, n - 1);
    }
  }

  /** A new job at the end of the ring is distinct from all outstanding ones. */
  lemma Appended(ring: seq<Job>, hw: seq<Job>, j: Job)
    requires Distinct(ring + hw)
    requires forall i :: 0 <= i < |ring| ==> !SameSession(ring[i], j)
    requires forall i :: 0 <= i < |hw| ==> !SameSession(hw[i], j)
    ensures Distinct(ring + [j] + hw)
  {
    var a, b := ring + hw, ring + [j] + hw;
    forall i, k | 0 <= i < k < |b|
      ensures !SameSession(b[i], b[k])
    {
      var i' := if i < |ring| then i else i - 1;
      var k' := if k < |ring| then k else k - 1;
      if i != |ring| && k != |ring| {
        assert b[i] == a[i'] && b[k] == a[k'];
      }
    }
  }

  lemma Rotated(ring: seq<Job>, hw: seq<Job>)
    requires ring != [] && Distinct(ring + hw)
    ensures Distinct(ring[1..] + (hw + [ring[0]]))
  {
    var a, b := ring + hw, ring[1..] + (hw + [ring[0]]);
    assert a == [ring[0]] + (ring[1..] + hw) && b == ring[1..] + hw + [ring[0]];
    forall i, k | 0 <= i < k < |b|
      ensures !SameSession(b[i], b[k])
    {
      assert b[i] == a[i + 1];
      if k < |b| - 1 {
        assert b[k] == a[k + 1];
      } else {
        assert b[k] == a[0];
      }
    }
  }

  lemma Extended(ring: seq<Job>, hw: seq<Job>, j: Job, d: nat, other: seq<Job>)
    requires Distinct(ring + hw) && other != [] && j == other[0] && Distinct(other + hw) && j.core != d
    requires forall i :: 0 <= i < |ring| ==> ring[i].core == d
    ensures Distinct(ring + hw + [j])
  {
    var a, b := ring + hw, ring + hw + [j];
    forall i, k | 0 <= i < k < |b|
      ensures !SameSession(b[i], b[k])
    {
      if k < |a| {
        assert b[i] == a[i] && b[k] == a[k];
      } else if i >= |ring| {
        assert b[i] == hw[i - |ring|] == (other + hw)[i - |ring| + |other|] && j == (other + hw)[0];
      }
    }
  }

  lemma Dropped(ring: seq<Job>, hw: seq<Job>, k: nat)
    requires Distinct(ring + hw) && k < |hw|
    ensures Distinct(ring + Without(hw, k))
  {
    var a, b := ring + hw, ring + Without(hw, k);
    assert forall i :: 0 <= i < |b| ==> b[i] == a[if i < |ring| + k then i else i + 1];
  }

  /** Every job but the completed one is still outstanding. */
  lemma RestRemains(ring: seq<Job>, hw: seq<Job>, k: nat)
    requires k < |hw|
    ensures forall j :: j in ring + hw && !SameSession(j, hw[k]) ==> j in ring + Without(hw, k)
  {
    forall j | j in ring + hw && !SameSession(j, hw[k])
      ensures j in ring + Without(hw, k)
    {
      if j !in ring {
        var i :| 0 <= i < |hw| && hw[i] == j;
        assert Without(hw, k)[if i < k then i else i - 1] == j;
      }
    }
  }
}
