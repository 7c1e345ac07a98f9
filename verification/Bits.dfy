/** Bitwise operators on unbounded naturals, so that masks and exclusive-ors of the C code can be
    reasoned about together with ordinary arithmetic. */
module Bits {
  import opened Bytes

  function Pow2(k: nat): (p: nat)
    ensures p >= 1
  {
    if k == 0 then 1 else 2 * Pow2(k - 1)
  }

  function And(x: nat, y: nat): (r: nat)
    ensures r <= x && r <= y
  {
    if x == 0 || y == 0 then 0 else (x % 2) * (y % 2) + 2 * And(x / 2, y / 2)
  }

  function Xor(x: nat, y: nat): (r: nat)
    decreases x + y
  {
    if x == 0 && y == 0 then 0 else (x + y) % 2 + 2 * Xor(x / 2, y / 2)
  }

  /** `count == 0 || (count & (count - 1)) != 0` is the ring's size check. */
  predicate PassesSizeCheck(count: nat)
  {
    count != 0 && And(count, count - 1) == 0
  }

  /** The check accepts exactly the powers of two. */
  lemma SizeCheckIffPowerOfTwo(count: nat)
    ensures PassesSizeCheck(count) <==> exists k :: count == Pow2(k)
  {
    if PassesSizeCheck(count) {
      var k := ExponentOf(count);
    }
    if k :| count == Pow2(k) {
      PowerPasses(k);
    }
  }

  lemma {:induction false} ExponentOf(count: nat) returns (k: nat)
    requires PassesSizeCheck(count)
    ensures count == Pow2(k)
    decreases count
  {
    if count == 1 {
      k := 0;
      assert Pow2(0) == 1;
    } else {
      if count % 2 == 1 {
        assert And(count, count - 1) == 2 * And(count / 2, (count - 1) / 2);
        assert count / 2 == (count - 1) / 2;
        AndSelf(count / 2);
        assert false;
      }
      assert (count - 1) / 2 == count / 2 - 1;
      var j := ExponentOf(count / 2);
      k := j + 1;
    }
  }

  lemma {:induction false} PowerPasses(k: nat)
    ensures PassesSizeCheck(Pow2(k))
  {
    if k > 0 {
      PowerPasses(k - 1);
      assert (Pow2(k) - 1) / 2 == Pow2(k - 1) - 1;
    }
  }

  lemma {:induction false} AndSelf(x: nat)
    ensures And(x, x) == x
  {
    if x > 0 {
      AndSelf(x / 2);
      assert (x % 2) * (x % 2) == x % 2;
    }
  }

  /** Masking with size - 1 is reduction modulo a power-of-two size. */
  lemma {:induction false} MaskIsMod(x: nat, k: nat)
    ensures And(x, Pow2(k) - 1) == x % Pow2(k)
    decreases k
  {
    if k == 0 {
    } else if x == 0 {
    } else {
      var p := Pow2(k - 1);
      MaskIsMod(x / 2, k - 1);
      assert (2 * p - 1) / 2 == p - 1 && (2 * p - 1) % 2 == 1;
      ModDouble(x, p);
    }
  }

  lemma ModDouble(x: nat, p: nat)
    requires p >= 1
    ensures x % (2 * p) == x % 2 + 2 * (x / 2 % p)
  {
    var h := x / 2;
    var q := h / p;
    assert h == q * p + h % p;
    assert x == q * (2 * p) + (x % 2 + 2 * (h % p));
    ModUnique(x, 2 * p, q, x % 2 + 2 * (h % p));
  }

  lemma ModUnique(x: int, d: int, q: int, r: int)
    requires d > 0 && 0 <= r < d && x == q * d + r
    ensures x % d == r && x / d == q
  {
    var q', r' := x / d, x % d;
    assert x == q' * d + r';
    assert (q - q') * d == r' - r;
    if q - q' >= 1 {
      MulAtLeast(q - q', d);
    } else if q' - q >= 1 {
      MulAtLeast(q' - q, d);
    }
  }

  lemma MulAtLeast(a: int, d: int)
    requires a >= 1 && d > 0
    ensures a * d >= d
  {}

  /** Stepping an index below a power of two and masking it goes round. */
  lemma MaskStep(t: nat, k: nat)
    requires t < Pow2(k)
    ensures And(t + 1, Pow2(k) - 1) == if t + 1 == Pow2(k) then 0 else t + 1
  {
    MaskIsMod(t + 1, k);
    if t + 1 == Pow2(k) {
      ModUnique(t + 1, Pow2(k), 1, 0);
    } else {
      ModUnique(t + 1, Pow2(k), 0, t + 1);
    }
  }

  /** The slot of position `i` in a ring of `n` slots. */
  function Slot(i: nat, n: nat): (r: nat)
    requires n > 0
    ensures r < n
  {
    if i < n then i else Slot(i - n, n)
  }

  lemma {:induction false} NextSlot(i: nat, n: nat)
    requires n > 0
    ensures Slot(i + 1, n) == if Slot(i, n) + 1 == n then 0 else Slot(i, n) + 1
  {
    if i >= n {
      NextSlot(i - n, n);
    }
  }

  /** Positions less than a round apart share a slot only if they are equal; a round apart they do. */
  lemma {:induction false} SameSlot(i: nat, j: nat, n: nat)
    requires n > 0 && i <= j <= i + n
    ensures Slot(i, n) == Slot(j, n) <==> i == j || j == i + n
  {
    if i >= n {
      SameSlot(i - n, j - n, n);
    }
  }

  lemma XorSplit(x: nat, y: nat)
    ensures Xor(x, y) / 2 == Xor(x / 2, y / 2) && Xor(x, y) % 2 == (x + y) % 2
  {}

  lemma ParityCancels(x: nat, y: nat, z: nat)
    requires z % 2 == (x + y) % 2
    ensures (x + z) % 2 == y % 2
  {}

  lemma {:induction false} XorCancels(x: nat, y: nat)
    ensures Xor(x, Xor(x, y)) == y
    decreases x + y
  {
    var z := Xor(x, y);
    XorSplit(x, y);
    XorSplit(x, z);
    ParityCancels(x, y, z);
    if x + y > 0 {
      XorCancels(x / 2, y / 2);
    }
  }

  lemma {:induction false} XorSelf(x: nat)
    ensures Xor(x, x) == 0
    decreases x
  {
    if x > 0 {
      XorSelf(x / 2);
    }
  }

  lemma {:induction false} XorBound(x: nat, y: nat, k: nat)
    requires x < Pow2(k) && y < Pow2(k)
    ensures Xor(x, y) < Pow2(k)
    decreases k
  {
    if k > 0 {
      XorBound(x / 2, y / 2, k - 1);
    }
  }

  function XorByte(x: byte, y: byte): (r: byte)
  {
    assert Pow2(8) == 256 by {
      assert Pow2(4) == 16;
    }
    XorBound(x, y, 8);
    Xor(x, y)
  }

  function XorBytes(a: bytes, b: bytes): (r: bytes)
    requires |a| == |b|
    ensures |r| == |a|
  {
    seq(|a|, i requires 0 <= i < |a| => XorByte(a[i], b[i]))
  }

  lemma XorBytesInjective(a: bytes, b: bytes, c: bytes)
    requires |a| == |b| == |c|
    requires XorBytes(a, b) == XorBytes(a, c)
    ensures b == c
  {
    forall i | 0 <= i < |a|
      ensures b[i] == c[i]
    {
      assert XorBytes(a, b)[i] == XorBytes(a, c)[i];
      XorCancels(a[i], b[i]);
      XorCancels(a[i], c[i]);
    }
  }
}
