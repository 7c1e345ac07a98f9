/** 32-bit sequence-number comparison (section 3.4 of RFC 9293) and the NIC's classification of an
    arriving segment. */
module SeqNum {
  import opened Bytes

  const HALF: int := 0x8000_0000

  /** `(int32_t)(a - b)` */
  function Diff(a: u32, b: u32): (d: int)
    ensures -HALF <= d < HALF
  {
    var d := (a - b) % TWO32;
    if d < HALF then d else d - TWO32
  }

  predicate SeqLt(a: u32, b: u32) { Diff(a, b) < 0 }
  predicate SeqLeq(a: u32, b: u32) { Diff(a, b) <= 0 }
  predicate SeqGt(a: u32, b: u32) { Diff(a, b) > 0 }
  predicate SeqGeq(a: u32, b: u32) { Diff(a, b) >= 0 }

  /** The MIN and MAX macros. */
  function SeqMin(a: u32, b: u32): u32 { if Diff(a, b) < 0 then a else b }
  function SeqMax(a: u32, b: u32): u32 { if Diff(a, b) > 0 then a else b }

  lemma WrapDiff(x: int, y: int)
    ensures (Wrap32(x) - Wrap32(y)) % TWO32 == (x - y) % TWO32
  {
    var a, b := x / TWO32, y / TWO32;
    assert x - y == Wrap32(x) - Wrap32(y) + TWO32 * (a - b);
    ModShift(Wrap32(x) - Wrap32(y), a - b);
  }

  lemma ModShift(x: int, k: int)
    ensures (x + TWO32 * k) % TWO32 == x % TWO32
  {}

  /** On wrapped stream positions the signed difference is the true one. */
  lemma DiffExact(x: int, y: int)
    requires -HALF <= x - y < HALF
    ensures Diff(Wrap32(x), Wrap32(y)) == x - y
  {
    WrapDiff(x, y);
  }

  /** For positions less than 2^32 apart the comparison is right exactly when they are within 2^31. */
  lemma LtExactIff(x: int, y: int)
    requires -TWO32 < x - y < TWO32
    ensures (SeqLt(Wrap32(x), Wrap32(y)) <==> x < y) <==> -HALF <= x - y < HALF
  {
    WrapDiff(x, y);
  }

  lemma ComparisonsExact(x: int, y: int)
    requires -HALF <= x - y < HALF
    ensures SeqLt(Wrap32(x), Wrap32(y)) <==> x < y
    ensures SeqLeq(Wrap32(x), Wrap32(y)) <==> x <= y
    ensures SeqGt(Wrap32(x), Wrap32(y)) <==> x > y
    ensures SeqGeq(Wrap32(x), Wrap32(y)) <==> x >= y
    ensures Wrap32(x) == Wrap32(y) <==> x == y
    ensures SeqMin(Wrap32(x), Wrap32(y)) == Wrap32(if x < y then x else y)
    ensures SeqMax(Wrap32(x), Wrap32(y)) == Wrap32(if x > y then x else y)
  {
    DiffExact(x, y);
  }

  // ---------------------------------------------------------------- validate_sequence

  datatype SeqCase = SeqOk | SeqUnder | SeqOver | Weird

  /** The fields of tcp_connection_t that the classification reads. */
  datatype Window = Window(recvSeq: u32, recvAck: u32, recvLen: u16, sentAck: u32)

  /** Where the last accepted segment ended, which is what an acknowledgement names. */
  function EndOf(w: Window): u32
  {
    Wrap32(w.recvSeq + w.recvLen)
  }

  function Validate(w: Window, seqNo: u32, ackNo: u32, len: u16): SeqCase
  {
    if seqNo == w.recvSeq && ackNo == w.recvAck && len == w.recvLen then SeqOk
    else if w.sentAck == seqNo || Wrap32(w.recvSeq + w.recvLen) == seqNo then SeqOk
    else if SeqLt(seqNo, w.recvSeq) || SeqLt(ackNo, w.recvAck) then SeqUnder
    else if SeqGt(seqNo, w.sentAck) && SeqGt(seqNo, Wrap32(w.recvSeq + w.recvLen)) then SeqOver
    else Weird
  }

  /** The same classification on positions of unbounded streams. */
  datatype Positions = Positions(recvSeq: int, recvAck: int, recvLen: u16, sentAck: int)

  function Classify(w: Positions, seqNo: int, ackNo: int, len: u16): SeqCase
  {
    if seqNo == w.recvSeq && ackNo == w.recvAck && len == w.recvLen then SeqOk
    else if w.sentAck == seqNo || w.recvSeq + w.recvLen == seqNo then SeqOk
    else if seqNo < w.recvSeq || ackNo < w.recvAck then SeqUnder
    else if seqNo > w.sentAck && seqNo > w.recvSeq + w.recvLen then SeqOver
    else Weird
  }

  predicate Near(x: int, y: int)
  {
    -HALF <= x - y < HALF
  }

  lemma WrapAdd(x: int, n: int)
    ensures Wrap32(Wrap32(x) + n) == Wrap32(x + n)
  {
    var k := x / TWO32;
    assert x + n == Wrap32(x) + n + TWO32 * k;
    ModShift(Wrap32(x) + n, k);
  }

  /** Wrapping commutes with the classification: whatever the initial sequence numbers, and across
      wrap-around, the 32-bit answer is the one for the streams themselves. */
  lemma ValidateIsClassify(w: Positions, seqNo: int, ackNo: int, len: u16)
    requires Near(seqNo, w.recvSeq) && Near(seqNo, w.sentAck) && Near(seqNo, w.recvSeq + w.recvLen)
    requires Near(ackNo, w.recvAck)
    ensures Validate(Window(Wrap32(w.recvSeq), Wrap32(w.recvAck), w.recvLen, Wrap32(w.sentAck)),
                     Wrap32(seqNo), Wrap32(ackNo), len)
            == Classify(w, seqNo, ackNo, len)
  {
    ComparisonsExact(seqNo, w.recvSeq);
    ComparisonsExact(seqNo, w.sentAck);
    ComparisonsExact(seqNo, w.recvSeq + w.recvLen);
    ComparisonsExact(ackNo, w.recvAck);
    WrapAdd(w.recvSeq, w.recvLen);
  }
}
