/** The ECDSA signature encoder of ssl.c against the DER rules it must satisfy: a SEQUENCE of two
    minimal INTEGERs (section 8.3 of X.690, section 2.2.3 of RFC 3279). */
module Der {
  import opened Bytes

  /** A PKA result for a P-256 signature component. */
  type Operand = b: bytes | |b| <= 32

  function BeVal(b: bytes): nat
  {
    if b == [] then 0 else BeVal(b[..|b| - 1]) * 256 + b[|b| - 1]
  }

  function StripZeros(b: bytes): (t: bytes)
    ensures |t| <= |b|
    ensures t != [] ==> t[0] != 0
  {
    if b != [] && b[0] == 0 then StripZeros(b[1..]) else b
  }

  /** The content octets the encoder emits for one component. */
  function IntBody(b: bytes): (t: bytes)
    ensures |t| <= |b| + 1
  {
    var t := StripZeros(b);
    if t != [] && t[0] >= 128 then [0] + t else t
  }

  function EncodeInteger(c: bytes): (b: bytes)
    requires |c| < 128
    ensures |b| == |c| + 2
  {
    [2, |c|] + c
  }

  function DerSignature(r: Operand, s: Operand): (sig: bytes)
    ensures |sig| <= 72
  {
    var R, S := IntBody(r), IntBody(s);
    [0x30, 4 + |R| + |S|] + (EncodeInteger(R) + EncodeInteger(S))
  }

  // ---------------------------------------------------------------- the reference decoder

  /** Content octets that are a minimal, non-negative INTEGER (sections 8.3.2 and 8.3.3 of X.690). */
  predicate Minimal(c: bytes)
  {
    && |c| >= 1
    && c[0] < 128
    && (|c| >= 2 && c[0] == 0 ==> c[1] >= 128)
  }

  function DecodeInteger(b: bytes): (r: Option<(nat, bytes)>)
    ensures r.Some? ==> |r.value.1| < |b|
  {
    if |b| >= 2 && b[0] == 2 && b[1] < 128 && b[1] <= |b| - 2 && Minimal(b[2..2 + b[1]])
    then Some((BeVal(b[2..2 + b[1]]), b[2 + b[1]..]))
    else None
  }

  function DecodePair(b: bytes): Option<(nat, nat)>
  {
    match DecodeInteger(b)
    case None => None
    case Some((x, rest)) =>
      match DecodeInteger(rest)
      case None => None
      case Some((y, rest')) => if rest' == [] then Some((x, y)) else None
  }

  function Decode(b: bytes): Option<(nat, nat)>
  {
    if |b| >= 2 && b[0] == 0x30 && b[1] < 128 && b[1] == |b| - 2 then DecodePair(b[2..]) else None
  }

  // ---------------------------------------------------------------- values

  lemma {:induction false} BeValConcat(a: bytes, b: bytes)
    ensures BeVal(a) == 0 ==> BeVal(a + b) == BeVal(b)
    decreases |b|
  {
    if a == [] {
      assert a + b == b;
    } else if b == [] {
      assert a + b == a;
    } else {
      assert (a + b)[..|a + b| - 1] == a + b[..|b| - 1];
      BeValConcat(a, b[..|b| - 1]);
    }
  }

  lemma {:induction false} BeValZeros(b: bytes)
    requires forall i :: 0 <= i < |b| ==> b[i] == 0
    ensures BeVal(b) == 0
  {
    if b != [] {
      BeValZeros(b[..|b| - 1]);
    }
  }

  lemma LeadingZero(b: bytes)
    ensures BeVal([0] + b) == BeVal(b)
  {
    BeValZeros([0]);
    BeValConcat([0], b);
  }

  lemma {:induction false} StripKeepsValue(b: bytes)
    ensures BeVal(StripZeros(b)) == BeVal(b)
  {
    if b != [] && b[0] == 0 {
      StripKeepsValue(b[1..]);
      LeadingZero(b[1..]);
      assert [0] + b[1..] == b;
    }
  }

  /** A byte string with a non-zero first byte has a value that fixes its length. */
  lemma {:induction false} BeValBounds(b: bytes)
    ensures BeVal(b) < Pow256(|b|)
    ensures b != [] && b[0] > 0 ==> BeVal(b) >= Pow256(|b| - 1)
  {
    if b != [] {
      BeValBounds(b[..|b| - 1]);
    }
  }

  lemma {:induction false} BeValUnique(a: bytes, b: bytes)
    requires |a| == |b| && BeVal(a) == BeVal(b)
    ensures a == b
    decreases |a|
  {
    if a != [] {
      BeValUnique(a[..|a| - 1], b[..|b| - 1]);
      assert a == a[..|a| - 1] + [a[|a| - 1]];
      assert b == b[..|b| - 1] + [b[|b| - 1]];
    }
  }

  /** Minimal octets are determined by the integer they denote. */
  lemma MinimalUnique(a: bytes, b: bytes)
    requires Minimal(a) && Minimal(b) && BeVal(a) == BeVal(b)
    ensures a == b
  {
    var a', b' := StripZeros(a), StripZeros(b);
    StripKeepsValue(a);
    StripKeepsValue(b);
    if |a'| > |b'| {
      LongerIsLarger(a', b');
    } else if |b'| > |a'| {
      LongerIsLarger(b', a');
    } else {
      BeValUnique(a', b');
    }
    MinimalIsIntBody(a);
    MinimalIsIntBody(b);
  }

  lemma LongerIsLarger(a: bytes, b: bytes)
    requires |a| > |b| && a[0] != 0
    ensures BeVal(a) > BeVal(b)
  {
    BeValBounds(a);
    BeValBounds(b);
    Pow256Grows(|b|, |a| - 1);
  }

  /** Minimal octets are recovered from their stripped form. */
  lemma MinimalIsIntBody(a: bytes)
    requires Minimal(a)
    ensures a == if StripZeros(a) == [] then [0] else IntBody(a)
  {
    if |a| >= 2 && a[0] == 0 {
      assert StripZeros(a) == StripZeros(a[1..]) == a[1..];
      assert a == [0] + a[1..];
    } else if a[0] == 0 {
      assert a == [0];
    }
  }

  /** At most one byte string decodes to a given pair, so "the" DER encoding is well defined. */
  lemma DecodeInjective(b1: bytes, b2: bytes)
    requires Decode(b1).Some? && Decode(b1) == Decode(b2)
    ensures b1 == b2
  {
    var r1, r2 := DecodeInteger(b1[2..]).value.1, DecodeInteger(b2[2..]).value.1;
    IntegerInjective(r1, r2);
    IntegerInjective(b1[2..], b2[2..]);
    assert b1 == [b1[0], b1[1]] + b1[2..];
    assert b2 == [b2[0], b2[1]] + b2[2..];
  }

  lemma IntegerInjective(b1: bytes, b2: bytes)
    requires DecodeInteger(b1).Some? && DecodeInteger(b2).Some?
    requires DecodeInteger(b1).value == DecodeInteger(b2).value
    ensures b1 == b2
  {
    var c1, c2 := b1[2..2 + b1[1]], b2[2..2 + b2[1]];
    MinimalUnique(c1, c2);
    assert b1 == [b1[0], b1[1]] + c1 + b1[2 + b1[1]..];
    assert b2 == [b2[0], b2[1]] + c2 + b2[2 + b2[1]..];
  }

  // ---------------------------------------------------------------- the encoder is canonical

  lemma PositiveStrips(b: bytes)
    ensures BeVal(b) > 0 <==> StripZeros(b) != []
  {
    StripKeepsValue(b);
    var t := StripZeros(b);
    if t != [] {
      BeValBounds(t);
      assert Pow256(|t| - 1) >= 1;
    }
  }

  lemma IntBodyMinimal(b: bytes)
    ensures Minimal(IntBody(b)) <==> BeVal(b) > 0
    ensures BeVal(IntBody(b)) == BeVal(b)
  {
    PositiveStrips(b);
    StripKeepsValue(b);
    LeadingZero(StripZeros(b));
  }

  lemma DecodeEncodedInteger(c: bytes, rest: bytes)
    requires |c| < 128
    ensures var d := DecodeInteger(EncodeInteger(c) + rest);
            if Minimal(c) then d == Some((BeVal(c), rest)) else d == None
  {
    var b := EncodeInteger(c) + rest;
    assert b[2..2 + |c|] == c && b[2 + |c|..] == rest;
  }

  /** For every r and s, leading zeros or not, the emitted bytes are the DER encoding of (r, s)
      exactly when both are positive: a zero component yields an INTEGER with no content. */
  lemma SignatureIsDer(r: Operand, s: Operand)
    ensures Decode(DerSignature(r, s)) == Some((BeVal(r), BeVal(s))) <==> BeVal(r) > 0 && BeVal(s) > 0
    ensures BeVal(r) == 0 || BeVal(s) == 0 ==> Decode(DerSignature(r, s)) == None
    ensures |DerSignature(r, s)| <= 72
  {
    var R, S := IntBody(r), IntBody(s);
    IntBodyMinimal(r);
    IntBodyMinimal(s);
    DecodeEncodedPair(R, S);
    assert DerSignature(r, s)[2..] == EncodeInteger(R) + EncodeInteger(S);
  }

  lemma DecodeEncodedPair(R: bytes, S: bytes)
    requires |R| < 128 && |S| < 128
    ensures var d := DecodePair(EncodeInteger(R) + EncodeInteger(S));
            if Minimal(R) && Minimal(S) then d == Some((BeVal(R), BeVal(S))) else d == None
  {
    DecodeEncodedInteger(R, EncodeInteger(S));
    assert EncodeInteger(S) + [] == EncodeInteger(S);
    DecodeEncodedInteger(S, []);
  }

  // ---------------------------------------------------------------- the code

  /** remove_leading_zeros on the `len` bytes at `off`: returns the new length; only the kept bytes move. */
  method RemoveLeadingZeros(buf: array<byte>, off: nat, len: nat) returns (len': nat)
    requires off + len <= buf.Length
    modifies buf
    ensures len' <= len
    ensures buf[off..off + len'] == StripZeros(old(buf[off..off + len]))
    ensures forall i :: 0 <= i < off ==> buf[i] == old(buf[i])
    ensures forall i :: off + len' <= i < buf.Length ==> buf[i] == old(buf[i])
  {
    var offset: nat := 0;
    ghost var was := buf[off..off + len];
    while offset < len && buf[off + offset] == 0
      invariant offset <= len
      invariant forall i :: 0 <= i < offset ==> was[i] == 0
    {
      offset := offset + 1;
    }
    StripSkips(was, offset);
    len' := len - offset;
    forall i | off <= i < off + len' {
      buf[i] := buf[i + offset];
    }
    assert buf[off..off + len'] == was[offset..];
  }

  lemma {:induction false} StripSkips(b: bytes, k: nat)
    requires k <= |b|
    requires forall i :: 0 <= i < k ==> b[i] == 0
    requires k < |b| ==> b[k] != 0
    ensures StripZeros(b) == b[k..]
    decreases k
  {
    if k > 0 {
      StripSkips(b[1..], k - 1);
      assert b[1..][k - 1..] == b[k..];
    }
  }

  /** handle_after_ecdsa_signature, from the two PKA results to cert_signature. */
  method HandleAfterEcdsaSignature(r: Operand, s: Operand) returns (signature: bytes)
    ensures signature == DerSignature(r, s)
  {
    var rBuf, rLen := Normalise(r);
    var sBuf, sLen := Normalise(s);
    signature := [];
    signature := signature + [0x30];
    signature := signature + [2 + rLen + 2 + sLen];
    signature := signature + [2] + [rLen] + rBuf;
    signature := signature + [2] + [sLen] + sBuf;
    assert signature == DerSignature(r, s);
  }

  /** One component: copied behind a spare zero byte, stripped, and widened by that byte when its top
      bit is set. */
  method Normalise(v: Operand) returns (body: bytes, len: byte)
    ensures body == IntBody(v) && len == |body|
  {
    var buf := new byte[128](_ => 0);
    forall i | 1 <= i < 1 + |v| {
      buf[i] := v[i - 1];
    }
    assert buf[1..1 + |v|] == v;
    var n := RemoveLeadingZeros(buf, 1, |v|);
    ghost var t := StripZeros(v);
    assert buf[1..1 + n] == t;
    assert n == 0 ==> buf[1] == 0;
    if buf[1] >= 128 {
      assert buf[1] == t[0];
      len := n + 1;
      body := buf[..len];
      assert body == [0] + buf[1..1 + n];
    } else {
      assert n > 0 ==> buf[1] == t[0];
      len := n;
      body := buf[1..1 + len];
    }
  }
}
