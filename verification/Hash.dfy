/** The one-at-a-time hash of calculate_hash, in 32-bit arithmetic, and its two uses. */
module Hash {
  import opened Bytes
  import opened Bits

  const NUM_BINS: nat := 1024

  /** `hash += byte; hash += hash << 10; hash ^= hash >> 6` */
  function Mix(hash: u32, b: byte): u32
  {
    var h1 := Wrap32(hash + b);
    var h2 := Wrap32(h1 + h1 * 1024);
    Wrap32(Xor(h2, h2 / 64))
  }

  function MixAll(hash: u32, key: bytes): u32
    decreases |key|
  {
    if key == [] then hash else MixAll(Mix(hash, key[0]), key[1..])
  }

  /** The final avalanche and the mask. */
  function Bin(key: bytes): (b: nat)
    ensures b < NUM_BINS
  {
    var h := MixAll(0, key);
    var h1 := Wrap32(h + h * 8);
    var h2 := Wrap32(Xor(h1, h1 / 2048));
    And(Wrap32(h2 + h2 * 32768), NUM_BINS - 1)
  }

  /** The loop of calculate_hash over the key bytes. */
  method CalculateHash(key: bytes) returns (b: nat)
    ensures b == Bin(key) && b < NUM_BINS
  {
    var hash: u32 := 0;
    var i := 0;
    while i < |key|
      invariant 0 <= i <= |key|
      invariant MixAll(hash, key[i..]) == MixAll(0, key)
    {
      hash := Wrap32(hash + key[i]);
      hash := Wrap32(hash + hash * 1024);
      hash := Wrap32(Xor(hash, hash / 64));
      i := i + 1;
    }
    hash := Wrap32(hash + hash * 8);
    hash := Wrap32(Xor(hash, hash / 2048));
    hash := Wrap32(hash + hash * 32768);
    b := And(hash, NUM_BINS - 1);
  }
}
