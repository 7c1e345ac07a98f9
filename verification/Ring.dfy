/** The single-producer single-consumer ring of ring.c, as one caller sees it. */
module Ring {
  import opened Bits

  datatype Result<T> = Error | Success(value: T)

  class Ring<T(0)> {
    const slots: array<T>
    const mask: nat
    var head: nat
    var tail: nat
    ghost const exponent: nat

    ghost predicate Valid()
      reads this
    {
      && slots.Length == Pow2(exponent) && mask == Pow2(exponent) - 1
      && head < slots.Length && tail < slots.Length
    }

    /** Items between head and tail. */
    ghost function Count(): nat
      requires Valid()
      reads this
    {
      if head <= tail then tail - head else tail + slots.Length - head
    }

    ghost function Contents(): (s: seq<T>)
      requires Valid()
      reads this, slots
      ensures |s| == Count()
    {
      if head <= tail then slots[head..tail] else slots[head..] + slots[..tail]
    }

    /** sj_ring_create; a size that fails its check ends the program there. */
    constructor (count: nat)
      requires PassesSizeCheck(count)
      ensures Valid() && fresh(slots) && slots.Length == count && Contents() == []
    {
      ghost var k := ExponentOf(count);
      slots := new T[count];
      mask := count - 1;
      head, tail := 0, 0;
      exponent := k;
    }

    /** sj_ring_enqueue: refused exactly when size - 1 items are queued. */
    method Enqueue(obj: T) returns (ok: bool)
      requires Valid()
      modifies this`tail, slots
      ensures Valid()
      ensures ok <==> |old(Contents())| < slots.Length - 1
      ensures Contents() == if ok then old(Contents()) + [obj] else old(Contents())
    {
      var t := tail;
      var h := head;
      MaskStep(t, exponent);
      if And(t + 1, mask) == h {
        return false;
      }
      slots[t] := obj;
      tail := And(t + 1, mask);
      ok := true;
      assert Contents() == old(Contents()) + [obj];
    }

    /** sj_ring_dequeue: the oldest item, refused exactly when the ring is empty. */
    method Dequeue() returns (r: Result<T>)
      requires Valid()
      modifies this`head
      ensures Valid()
      ensures r.Error? <==> old(Contents()) == []
      ensures r.Success? ==> r.value == old(Contents())[0] && Contents() == old(Contents())[1..]
      ensures r.Error? ==> Contents() == old(Contents())
    {
      var h := head;
      var t := tail;
      if h == t {
        return Error;
      }
      MaskStep(h, exponent);
      r := Success(slots[h]);
      head := And(h + 1, mask);
      assert Contents() == old(Contents())[1..];
    }
  }
}
