/** Little-endian big numbers as the PKA helper compares and draws them. */
module BigNum {
  import opened Bytes

  /** The number a little-endian operand stands for. */
  function Value(b: bytes): nat
  {
    if b == [] then 0 else Value(b[..|b| - 1]) + (b[|b| - 1] as int) * Pow256(|b| - 1)
  }

  /** Products with a byte, kept away from the solver's nonlinear search. */
  lemma MulMonotone(a: nat, b: nat, p: nat)
    requires a <= b
    ensures a * p <= b * p
  {
    assert b * p == a * p + (b - a) * p;
  }

  lemma {:induction false} ValueBelow(b: bytes)
    ensures Value(b) < Pow256(|b|)
  {
    if b != [] {
      var n := |b| - 1;
      var top: int, p := b[n], Pow256(n);
      ValueBelow(b[..n]);
      MulMonotone(top + 1, 256, p);
      assert (top + 1) * p == top * p + p;
    }
  }

  /** A non-zero top byte bounds the number from below. */
  lemma TopBounds(b: bytes)
    requires b != [] && b[|b| - 1] != 0
    ensures Value(b) >= Pow256(|b| - 1)
  {
    MulMonotone(1, b[|b| - 1], Pow256(|b| - 1));
  }

  /** Between operands of one length the larger top byte wins. */
  lemma TopDecides(a: bytes, b: bytes)
    requires |a| == |b| && a != [] && a[|a| - 1] < b[|b| - 1]
    ensures Value(a) < Value(b)
  {
    var n := |a| - 1;
    var x: int, y: int, p := a[n], b[n], Pow256(n);
    ValueBelow(a[..n]);
    MulMonotone(x + 1, y, p);
    assert (x + 1) * p == x * p + p;
  }

  /** Without leading zeros the shorter number is the smaller. */
  lemma ShorterIsSmaller(a: bytes, b: bytes)
    requires |a| < |b| && b[|b| - 1] != 0
    ensures Value(a) < Value(b)
  {
    ValueBelow(a);
    TopBounds(b);
    Pow256Grows(|a|, |b| - 1);
  }

  /** The length without leading zeros, which are at the end. */
  function Significant(b: bytes): (n: nat)
    ensures n <= |b| && (n > 0 ==> b[n - 1] != 0)
  {
    if b == [] then 0 else if b[|b| - 1] != 0 then |b| else Significant(b[..|b| - 1])
  }

  lemma {:induction false} ValueOfSignificant(b: bytes)
    ensures Value(b[..Significant(b)]) == Value(b)
    ensures Value(b) == 0 <==> Significant(b) == 0
  {
    if b == [] {
    } else if b[|b| - 1] != 0 {
      assert b[..|b|] == b;
      TopBounds(b);
    } else {
      var front := b[..|b| - 1];
      ValueOfSignificant(front);
      assert b[..Significant(b)] == front[..Significant(b)];
    }
  }

  lemma SignificantPrefix(b: bytes, n: nat)
    requires 0 < n <= |b| && b[n - 1] == 0 && Significant(b[..n]) == Significant(b)
    ensures Significant(b[..n - 1]) == Significant(b)
  {
    assert b[..n][..n - 1] == b[..n - 1];
  }

  /** operand_byte_len */
  method OperandByteLen(b: bytes) returns (n: nat)
    ensures n == Significant(b)
  {
    n := |b|;
    assert b[..n] == b;
    if n == 0 || b[n - 1] != 0 {
      return;
    }
    while 1 <= n && b[n - 1] == 0
      invariant n <= |b| && Significant(b[..n]) == Significant(b)
    {
      SignificantPrefix(b, n);
      n := n - 1;
    }
  }

  /** is_zero */
  method IsZero(b: bytes) returns (z: bool)
    ensures z <==> Value(b) == 0
  {
    ValueOfSignificant(b);
    var n := OperandByteLen(b);
    if n == 0 {
      return true;
    } else if n == 1 {
      return b[0] == 0;
    }
    return false;
  }

  datatype Comparison = LeftIsSmaller | RightIsSmaller | Equal

  function Compare(x: nat, y: nat): Comparison
  {
    if x < y then LeftIsSmaller else if y < x then RightIsSmaller else Equal
  }

  /** The leading-zero skip of pki_compare, which keeps one byte. */
  method SkipZeros(b: bytes) returns (n: nat)
    requires Value(b) > 0
    ensures n == Significant(b) && n >= 1
  {
    ValueOfSignificant(b);
    n := |b|;
    assert b[..n] == b;
    while b[n - 1] == 0 && 2 <= n
      invariant 1 <= n <= |b| && Significant(b[..n]) == Significant(b)
    {
      SignificantPrefix(b, n);
      n := n - 1;
    }
  }

  /** pki_compare: for operands of any length and padding, the order of the integers. */
  method PkiCompare(left: bytes, right: bytes) returns (c: Comparison)
    ensures c == Compare(Value(left), Value(right))
  {
    var leftZero := IsZero(left);
    var rightZero := IsZero(right);
    if leftZero {
      return if rightZero then Equal else LeftIsSmaller;
    } else if rightZero {
      return RightIsSmaller;
    }
    ValueOfSignificant(left);
    ValueOfSignificant(right);
    var leftLen := SkipZeros(left);
    var rightLen := SkipZeros(right);
    if leftLen < rightLen {
      ShorterIsSmaller(left[..leftLen], right[..rightLen]);
      return LeftIsSmaller;
    } else if rightLen < leftLen {
      ShorterIsSmaller(right[..rightLen], left[..leftLen]);
      return RightIsSmaller;
    }
    c := CompareFrom(left[..leftLen], right[..rightLen]);
  }

  /** The byte loop of pki_compare, from the most significant end. */
  method CompareFrom(left: bytes, right: bytes) returns (c: Comparison)
    requires |left| == |right|
    ensures c == Compare(Value(left), Value(right))
  {
    var k := |left|;
    assert left[..k] == left && right[..k] == right;
    while k > 0
      invariant 0 <= k <= |left|
      invariant Value(left) - Value(left[..k]) == Value(right) - Value(right[..k])
    {
      if left[k - 1] < right[k - 1] {
        TopDecides(left[..k], right[..k]);
        return LeftIsSmaller;
      } else if left[k - 1] > right[k - 1] {
        TopDecides(right[..k], left[..k]);
        return RightIsSmaller;
      }
      assert left[..k][..k - 1] == left[..k - 1] && right[..k][..k - 1] == right[..k - 1];
      k := k - 1;
    }
    return Equal;
  }

  /** get_msb_idx of a non-zero operand. */
  method GetMsbIdx(b: bytes) returns (i: nat)
    requires Value(b) > 0
    ensures i + 1 == Significant(b)
  {
    ValueOfSignificant(b);
    var len := |b|;
    assert b[..len] == b;
    while 1 <= len && b[len - 1] == 0
      invariant len <= |b| && Significant(b[..len]) == Significant(b)
    {
      SignificantPrefix(b, len);
      len := len - 1;
    }
    i := len - 1;
  }

  /** What the code makes of a draw: the draw itself if it is small enough, else its top byte reduced. */
  function FromDraw(maxPlus1: bytes, draw: bytes): (r: bytes)
    requires Significant(maxPlus1) > 0 && |draw| == Significant(maxPlus1)
    ensures |r| == |draw|
  {
    var n := |draw|;
    if Value(draw) < Value(maxPlus1) then draw else draw[..n - 1] + [draw[n - 1] % maxPlus1[n - 1]]
  }

  /** The result is always below max_plus_1. It is zero exactly when the draw was reduced, its top byte is
      a multiple of the maximum's, and every lower byte is zero. */
  lemma FromDrawInRange(maxPlus1: bytes, draw: bytes)
    requires Significant(maxPlus1) > 0 && |draw| == Significant(maxPlus1) && Value(draw) > 0
    ensures Value(FromDraw(maxPlus1, draw)) < Value(maxPlus1)
    ensures var n := |draw|;
            Value(FromDraw(maxPlus1, draw)) == 0 <==>
              && Value(draw) >= Value(maxPlus1)
              && draw[n - 1] % maxPlus1[n - 1] == 0 && Value(draw[..n - 1]) == 0
  {
    var n := |draw|;
    ValueOfSignificant(maxPlus1);
    if Value(draw) >= Value(maxPlus1) {
      var r := FromDraw(maxPlus1, draw);
      assert r[..n - 1] == draw[..n - 1];
      TopDecides(r, maxPlus1[..n]);
      if r[n - 1] != 0 {
        TopBounds(r);
      }
    }
  }

  /** A draw that is not below the maximum uses all its bytes. */
  lemma DrawIsFull(maxPlus1: bytes, draw: bytes)
    requires Significant(maxPlus1) > 0 && |draw| == Significant(maxPlus1) && Value(draw) >= Value(maxPlus1)
    ensures Significant(draw) == |draw|
  {
    ValueOfSignificant(maxPlus1);
    ValueOfSignificant(draw);
    if Significant(draw) < |draw| {
      ShorterIsSmaller(draw[..Significant(draw)], maxPlus1[..|draw|]);
    }
  }

  lemma TopReplaced(b: bytes, top: byte)
    requires b != []
    ensures b[|b| - 1 := top] == b[..|b| - 1] + [top]
  {}

  /** The do-while loop: the first draw that is not zero. */
  method FirstDraw(draws: seq<bytes>) returns (used: nat)
    requires exists i :: 0 <= i < |draws| && Value(draws[i]) > 0
    ensures used < |draws| && Value(draws[used]) > 0
    ensures forall i :: 0 <= i < used ==> Value(draws[i]) == 0
  {
    used := 0;
    var zero := IsZero(draws[used]);
    while zero
      invariant used < |draws| && (zero <==> Value(draws[used]) == 0)
      invariant forall i :: 0 <= i < used ==> Value(draws[i]) == 0
      decreases |draws| - used
    {
      used := used + 1;
      zero := IsZero(draws[used]);
    }
  }

  /** rand_non_zero_integer. `draws` are the answers of the random number generator, each as long as the
      maximum; a zero maximum would leave the loop nothing to draw. */
  method RandNonZeroInteger(maxPlus1: bytes, draws: seq<bytes>) returns (result: bytes, used: nat)
    requires Value(maxPlus1) > 0
    requires forall i :: 0 <= i < |draws| ==> |draws[i]| == Significant(maxPlus1)
    requires exists i :: 0 <= i < |draws| && Value(draws[i]) > 0
    ensures Significant(maxPlus1) > 0 && used < |draws| && Value(draws[used]) > 0
    ensures forall i :: 0 <= i < used ==> Value(draws[i]) == 0
    ensures result == FromDraw(maxPlus1, draws[used])
    ensures Value(result) < Value(maxPlus1)
  {
    ValueOfSignificant(maxPlus1);
    used := FirstDraw(draws);
    var draw := draws[used];
    FromDrawInRange(maxPlus1, draw);
    var c := PkiCompare(draw, maxPlus1);
    if c == LeftIsSmaller {
      return draw, used;
    }
    DrawIsFull(maxPlus1, draw);
    var maxIdx := GetMsbIdx(maxPlus1);
    var idx := GetMsbIdx(draw);
    TopReplaced(draw, draw[idx] % maxPlus1[maxIdx]);
    result := draw[idx := draw[idx] % maxPlus1[maxIdx]];
  }
}
