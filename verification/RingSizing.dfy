/** The size main gives a core's submit ring. */
module RingSizing {
  import opened Bits

  /** local_ring_cnt: a size sj_ring_create accepts, whose capacity size - 1 covers every connection. The
      bound is where the doubling of an `int` would overflow. */
  method LocalRingCnt(localMaxConn: int) returns (ringSize: nat)
    requires localMaxConn < 0x4000_0000
    ensures PassesSizeCheck(ringSize) && ringSize < 0x8000_0000
    ensures ringSize - 1 >= localMaxConn
    ensures localMaxConn >= 1 ==> ringSize <= 2 * localMaxConn
  {
    ringSize := 1;
    ghost var k := 0;
    while ringSize <= localMaxConn
      invariant ringSize == Pow2(k) <= 0x4000_0000
      invariant localMaxConn >= 1 ==> ringSize <= 2 * localMaxConn
      decreases localMaxConn - ringSize
    {
      ringSize := ringSize * 2;
      k := k + 1;
      BelowPowers(k);
    }
    SizeCheckIffPowerOfTwo(ringSize);
  }

  /** A power of two below 2^31 is at most 2^30. */
  lemma BelowPowers(k: nat)
    requires Pow2(k) < 0x8000_0000
    ensures Pow2(k) <= 0x4000_0000
  {
    if k >= 31 {
      Pow2Grows(31, k);
      assert Pow2(31) == 0x8000_0000 by { Pow2Of31(); }
    } else {
      Pow2Grows(k, 30);
      Pow2Of31();
    }
  }

  lemma {:induction false} Pow2Grows(a: nat, b: nat)
    requires a <= b
    ensures Pow2(a) <= Pow2(b)
    decreases b
  {
    if a < b {
      Pow2Grows(a, b - 1);
    }
  }

  lemma Pow2Of31()
    ensures Pow2(30) == 0x4000_0000 && Pow2(31) == 0x8000_0000
  {
    assert Pow2(10) == 1024;
    assert Pow2(20) == 0x10_0000;
    assert Pow2(30) == 0x4000_0000;
  }
}
