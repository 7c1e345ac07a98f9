/** Bytes, network byte order and the small amount of sequence algebra that the wire formats share. */
module Bytes {
  type byte = x: int | 0 <= x < 256
  type bytes = seq<byte>

  const TWO32: int := 0x1_0000_0000

  type u16 = x: int | 0 <= x < 0x1_0000
  type u32 = x: int | 0 <= x < 0x1_0000_0000

  type b2 = b: bytes | |b| == 2 witness [0, 0]
  type b12 = b: bytes | |b| == 12 witness Zeros(12)
  type b32 = b: bytes | |b| == 32 witness Zeros(32)

  datatype Option<+T> = None | Some(value: T)

  /** Reduction to 32 bits, as every `uint32_t` operation does. */
  function Wrap32(x: int): u32
  {
    x % TWO32
  }

  // Big-endian encodings (`htons`, `htonl`, `set_u32` on a uint24_t).

  function U16(n: u16): (b: bytes)
    ensures |b| == 2
  {
    [n / 256, n % 256]
  }

  function U24(n: nat): (b: bytes)
    ensures |b| == 3
  {
    [n / 65536 % 256, n / 256 % 256, n % 256]
  }

  function U32(n: u32): (b: bytes)
    ensures |b| == 4
  {
    U16(n / 65536) + U16(n % 65536)
  }

  function Get16(b: bytes): (n: u16)
    requires |b| == 2
  {
    (b[0] as int) * 256 + b[1] as int
  }

  function Get32(b: bytes): (n: u32)
    requires |b| == 4
  {
    (Get16(b[..2]) as int) * 65536 + Get16(b[2..]) as int
  }

  lemma Get16U16(n: u16)
    ensures Get16(U16(n)) == n
  {}

  lemma Get32U32(n: u32)
    ensures Get32(U32(n)) == n
  {
    var b := U32(n);
    assert b[..2] == U16(n / 65536) && b[2..] == U16(n % 65536);
  }

  function Zeros(n: nat): (z: bytes)
    ensures |z| == n && forall i :: 0 <= i < n ==> z[i] == 0
  {
    seq(n, _ => 0)
  }

  /** Concatenation of a list of byte strings. */
  function Flatten(parts: seq<bytes>): bytes
  {
    if parts == [] then [] else Flatten(parts[..|parts| - 1]) + parts[|parts| - 1]
  }

  lemma FlattenSnoc(parts: seq<bytes>, last: bytes)
    ensures Flatten(parts + [last]) == Flatten(parts) + last
  {
    assert (parts + [last])[..|parts|] == parts;
  }

  lemma {:induction false} FlattenAppend(a: seq<bytes>, b: seq<bytes>)
    ensures Flatten(a + b) == Flatten(a) + Flatten(b)
    decreases |b|
  {
    if b == [] {
      assert a + b == a;
    } else {
      var front := b[..|b| - 1];
      assert (a + b)[..|a + b| - 1] == a + front;
      FlattenAppend(a, front);
      assert Flatten(a) + (Flatten(front) + b[|b| - 1]) == Flatten(a) + Flatten(front) + b[|b| - 1];
    }
  }

  function Pow256(n: nat): (p: nat)
    ensures p >= 1
  {
    if n == 0 then 1 else 256 * Pow256(n - 1)
  }

  lemma {:induction false} Pow256Grows(m: nat, n: nat)
    requires m <= n
    ensures Pow256(m) <= Pow256(n)
    decreases n
  {
    if m < n {
      Pow256Grows(m, n - 1);
    }
  }
}
