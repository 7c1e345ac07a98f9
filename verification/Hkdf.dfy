/** HKDF as ssl_crypto.c computes it, against section 2 of RFC 5869 and section 7.1 of RFC 8446.
    The hash and HMAC are parameters: nothing here depends on which functions they are. */
module Hkdf {
  import opened Bytes

  type Hmac = (bytes, bytes) -> bytes

  ghost predicate HmacLength(hmac: Hmac, hashLen: nat)
  {
    forall k: bytes, m: bytes :: |hmac(k, m)| == hashLen
  }

  /** T(i) of section 2.3 of RFC 5869; T(0) is empty. */
  function T(hmac: Hmac, prk: bytes, info: bytes, i: nat): bytes
  {
    if i == 0 then [] else hmac(prk, T(hmac, prk, info, i - 1) + info + [i % 256])
  }

  /** T(1) || ... || T(n) */
  function Okm(hmac: Hmac, prk: bytes, info: bytes, n: nat): bytes
  {
    if n == 0 then [] else Okm(hmac, prk, info, n - 1) + T(hmac, prk, info, n)
  }

  function Blocks(outLen: nat, hashLen: nat): nat
    requires hashLen > 0
  {
    (outLen + hashLen - 1) / hashLen
  }

  /** The first `outLen` bytes of T(1) || ... || T(n), or all of it when it is shorter. */
  function Prefix(hmac: Hmac, prk: bytes, info: bytes, n: nat, outLen: nat): bytes
  {
    var okm := Okm(hmac, prk, info, n);
    if outLen <= |okm| then okm[..outLen] else okm
  }

  /** HKDF-Expand: the first `outLen` bytes of T(1) || T(2) || ... */
  function Expand(hmac: Hmac, prk: bytes, info: bytes, outLen: nat, hashLen: nat): bytes
    requires hashLen > 0
  {
    Prefix(hmac, prk, info, Blocks(outLen, hashLen), outLen)
  }

  lemma BlockLength(hmac: Hmac, prk: bytes, info: bytes, i: nat, hashLen: nat)
    requires i > 0 && HmacLength(hmac, hashLen)
    ensures |T(hmac, prk, info, i)| == hashLen
  {
    assert |hmac(prk, T(hmac, prk, info, i - 1) + info + [i % 256])| == hashLen;
  }

  lemma {:induction false} OkmLength(hmac: Hmac, prk: bytes, info: bytes, n: nat, hashLen: nat)
    requires HmacLength(hmac, hashLen)
    ensures |Okm(hmac, prk, info, n)| == n * hashLen
  {
    if n > 0 {
      OkmLength(hmac, prk, info, n - 1, hashLen);
      BlockLength(hmac, prk, info, n, hashLen);
      assert |Okm(hmac, prk, info, n)| == |Okm(hmac, prk, info, n - 1)| + hashLen;
      assert (n - 1) * hashLen + hashLen == n * hashLen;
    }
  }

  lemma BlocksCover(outLen: nat, hashLen: nat)
    requires hashLen > 0
    ensures outLen <= Blocks(outLen, hashLen) * hashLen
    ensures outLen > 0 ==> (Blocks(outLen, hashLen) - 1) * hashLen < outLen
  {
    var n := Blocks(outLen, hashLen);
    assert outLen + hashLen - 1 == n * hashLen + (outLen + hashLen - 1) % hashLen;
    assert (n - 1) * hashLen == n * hashLen - hashLen;
  }

  lemma ExpandLength(hmac: Hmac, prk: bytes, info: bytes, outLen: nat, hashLen: nat)
    requires hashLen > 0 && HmacLength(hmac, hashLen)
    ensures |Expand(hmac, prk, info, outLen, hashLen)| == outLen
  {
    OkmLength(hmac, prk, info, Blocks(outLen, hashLen), hashLen);
    BlocksCover(outLen, hashLen);
  }

  /** hkdf_expand_internal. The counter is a `uint8_t`, so 255 blocks are outside what the loop can
      finish (see `CounterNeverPasses255`); more than 255 are refused, as the code does. */
  method HkdfExpandInternal(hmac: Hmac, prk: bytes, info: bytes, outLen: nat, hashLen: nat)
    returns (out: Option<bytes>)
    requires hashLen > 0 && HmacLength(hmac, hashLen)
    requires Blocks(outLen, hashLen) != 255
    ensures out.None? <==> Blocks(outLen, hashLen) > 255
    ensures out.Some? ==> out.value == Expand(hmac, prk, info, outLen, hashLen)
    ensures out.Some? ==> |out.value| == outLen
  {
    var n := Blocks(outLen, hashLen);
    if n > 255 {
      return None;
    }
    var buffer := ExpandBlocks(hmac, prk, info, n, outLen);
    ExpandLength(hmac, prk, info, outLen, hashLen);
    out := Some(buffer);
  }

  /** The loop over the blocks. */
  method ExpandBlocks(hmac: Hmac, prk: bytes, info: bytes, n: nat, outLen: nat) returns (buffer: bytes)
    requires n < 255
    ensures buffer == Prefix(hmac, prk, info, n, outLen)
  {
    var t: bytes := [];
    var done: nat := 0;
    buffer := [];
    var i: byte := 1;
    while i <= n
      invariant 1 <= i <= n + 1
      invariant done == |buffer| && Progress(hmac, prk, info, i - 1, outLen, t, buffer)
      decreases n + 1 - i
    {
      OneMoreBlock(hmac, prk, info, i, outLen, t, buffer);
      t := hmac(prk, t + info + [i]);
      var copy := if done + |t| > outLen then outLen - done else |t|;
      buffer := buffer + t[..copy];
      done := done + copy;
      i := (i + 1) % 256;
    }
  }

  /** What the loop holds after block `i`. */
  ghost predicate Progress(hmac: Hmac, prk: bytes, info: bytes, i: nat, outLen: nat, t: bytes, buffer: bytes)
  {
    t == T(hmac, prk, info, i) && buffer == Prefix(hmac, prk, info, i, outLen)
  }

  /** What the loop body's copy of block `i` adds to the output. */
  lemma OneMoreBlock(hmac: Hmac, prk: bytes, info: bytes, i: byte, outLen: nat, previous: bytes, buffer: bytes)
    requires i >= 1 && Progress(hmac, prk, info, i - 1, outLen, previous, buffer)
    ensures |buffer| <= outLen
    ensures var t := hmac(prk, previous + info + [i]);
            var copy := if |buffer| + |t| > outLen then outLen - |buffer| else |t|;
            Progress(hmac, prk, info, i, outLen, t, buffer + t[..copy])
  {
    assert i % 256 == i;
    assert T(hmac, prk, info, i) == hmac(prk, previous + info + [i]);
    assert Okm(hmac, prk, info, i) == Okm(hmac, prk, info, i - 1) + T(hmac, prk, info, i);
  }

  /** The value of the `uint8_t` counter after `k` executions of `i++` from 1. */
  function Counter(k: nat): byte
  {
    if k == 0 then 1 else (Counter(k - 1) + 1) % 256
  }

  lemma {:induction false} CounterValue(k: nat)
    requires k < 255
    ensures Counter(k) == k + 1
  {
    if k > 0 {
      CounterValue(k - 1);
    }
  }

  /** The loop guard `i <= n` fails after some number of iterations exactly when n is below 255:
      at 255 blocks the counter wraps to 0 instead of passing the bound, and the loop never ends. */
  lemma CounterNeverPasses255(n: nat)
    requires n <= 255
    ensures (exists k: nat :: Counter(k) > n) <==> n < 255
    ensures n < 255 ==> Counter(n) > n && forall k: nat :: k < n ==> Counter(k) <= n
  {
    if n < 255 {
      forall k: nat | k <= n
        ensures Counter(k) == k + 1
      {
        CounterValue(k);
      }
      assert Counter(n) > n;
    } else {
      assert forall k: nat :: Counter(k) <= 255;
    }
  }

  // HkdfLabel, section 7.1 of RFC 8446

  /** "tls13 " */
  const TLS13: bytes := [0x74, 0x6c, 0x73, 0x31, 0x33, 0x20]

  /** The octets of an ASCII string. */
  function Ascii(s: string): bytes
    requires forall i :: 0 <= i < |s| ==> s[i] < 128 as char
  {
    seq(|s|, i requires 0 <= i < |s| => s[i] as int)
  }

  /** hkdf_expand_label's `info`: the length, label and context fields with their length octets. */
  function HkdfLabel(length: nat, name: bytes, context: bytes): bytes
  {
    [length / 256 % 256, length % 256, (6 + |name|) % 256] + TLS13 + name + [|context| % 256] + context
  }

  /** The encoding is injective for every label and context the fixed `info` buffer can hold, including
      labels of 250 to 255 bytes whose length octet wraps. */
  lemma HkdfLabelInjective(n1: nat, l1: bytes, c1: bytes, n2: nat, l2: bytes, c2: bytes)
    requires n1 < 0x1_0000 && n2 < 0x1_0000
    requires |l1| <= 255 && |l2| <= 255 && |c1| <= 255 && |c2| <= 255
    requires HkdfLabel(n1, l1, c1) == HkdfLabel(n2, l2, c2)
    ensures n1 == n2 && l1 == l2 && c1 == c2
  {
    var e1, e2 := HkdfLabel(n1, l1, c1), HkdfLabel(n2, l2, c2);
    assert e1[0] == e2[0] && e1[1] == e2[1] && e1[2] == e2[2];
    assert |l1| == |l2|;
    assert l1 == e1[9..9 + |l1|] == e2[9..9 + |l2|] == l2;
    assert c1 == e1[10 + |l1|..] == e2[10 + |l2|..] == c2;
  }

  /** The label-length octet states the true length of `"tls13 " + label`, as the RFC's vector syntax
      demands, exactly when the label has at most 249 bytes. */
  lemma HkdfLabelLengthOctet(n: nat, name: bytes, context: bytes)
    requires |name| <= 255
    ensures HkdfLabel(n, name, context)[2] == |TLS13 + name| <==> |name| <= 249
  {}

  /** The encoding reads back field by field as section 7.1 of RFC 8446 lays out HkdfLabel: a two-byte length in
      network order, the label behind "tls13 " and the context, both behind an octet with their length. */
  lemma HkdfLabelReadsBack(length: nat, name: bytes, context: bytes)
    requires length < 0x1_0000 && |name| <= 249 && |context| <= 255
    ensures var e := HkdfLabel(length, name, context);
            && |e| == 10 + |name| + |context|
            && Get16(e[..2]) == length
            && e[2] == 6 + |name| && e[3..9] == Ascii("tls13 ") && e[9..9 + |name|] == name
            && e[9 + |name|] == |context| && e[10 + |name|..] == context
  {
    var e := HkdfLabel(length, name, context);
    assert e[..2] == U16(length);
    Get16U16(length);
    assert TLS13 == Ascii("tls13 ");
  }

  const HASH48: nat := 48

  /** hkdf_expand_label, which lays out `info` position by position in a buffer of 520 bytes; more than 255 blocks
      are refused by the expansion. */
  method HkdfExpandLabel(hmac: Hmac, secret: bytes, name: bytes, context: bytes, outLen: nat)
    returns (out: Option<bytes>)
    requires HmacLength(hmac, HASH48) && |name| <= 255 && |context| <= 255 && Blocks(outLen, HASH48) != 255
    ensures out.None? <==> Blocks(outLen, HASH48) > 255
    ensures out.Some? ==> out.value == ExpandLabel(hmac, secret, name, context, outLen) && |out.value| == outLen
  {
    var info := new byte[520];
    var pos := 0;
    info[pos], pos := outLen / 256 % 256, pos + 1;
    info[pos], pos := outLen % 256, pos + 1;
    info[pos], pos := (6 + |name|) % 256, pos + 1;
    ghost var front := [outLen / 256 % 256, outLen % 256, (6 + |name|) % 256];
    assert info[..pos] == front;
    CopyAt(info, pos, TLS13);
    pos := pos + 6;
    assert info[..pos] == front + TLS13;
    CopyAt(info, pos, name);
    pos := pos + |name|;
    assert info[..pos] == front + TLS13 + name;
    info[pos], pos := |context| % 256, pos + 1;
    assert info[..pos] == front + TLS13 + name + [|context| % 256];
    if |context| > 0 {
      CopyAt(info, pos, context);
      pos := pos + |context|;
    }
    assert info[..pos] == HkdfLabel(outLen, name, context);
    out := HkdfExpandInternal(hmac, secret, info[..pos], outLen, HASH48);
  }

  /** memcpy into the buffer. */
  method CopyAt(a: array<byte>, at: nat, data: bytes)
    requires at + |data| <= a.Length
    modifies a
    ensures a[..at] == old(a[..at]) && a[at..at + |data|] == data
    ensures a[..at + |data|] == old(a[..at]) + data
  {
    var i := 0;
    while i < |data|
      invariant 0 <= i <= |data|
      invariant a[..at] == old(a[..at]) && a[at..at + i] == data[..i]
    {
      a[at + i] := data[i];
      i := i + 1;
    }
    assert a[..at + |data|] == a[..at] + a[at..at + |data|];
  }

  function ExpandLabel(hmac: Hmac, secret: bytes, name: bytes, context: bytes, length: nat): (okm: bytes)
  {
    Expand(hmac, secret, HkdfLabel(length, name, context), length, HASH48)
  }

  /** HKDF-Extract of section 2.2 of RFC 5869. */
  function Extract(hmac: Hmac, salt: bytes, ikm: bytes): bytes
  {
    hmac(salt, ikm)
  }

  /** hkdf_extract: the HMAC is initialised with the salt and updated with the key. */
  function HkdfExtract(hmac: Hmac, salt: bytes, key: bytes): bytes
  {
    hmac(salt, key)
  }
}
