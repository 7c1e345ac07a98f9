/** send_tcp_packet: the server flight leaves as TCP segments. */
module Segments {
  import opened Bytes
  import opened SeqNum

  const MSS: nat := 1460    // MAX_PKT_SIZE - IP_HEADER_LEN - TCP_HEADER_LEN

  datatype Segment = Segment(seqNo: u32, data: bytes)

  function End(s: Segment): u32
  {
    Wrap32(s.seqNo + |s.data|)
  }

  /** The segments of `data` from sequence number `start`: full ones first, at least one in any case. */
  function Cut(start: u32, data: bytes): (segments: seq<Segment>)
    ensures segments != []
    decreases |data|
  {
    if |data| <= MSS then [Segment(start, data)]
    else [Segment(start, data[..MSS])] + Cut(Wrap32(start + MSS), data[MSS..])
  }

  function Payloads(segments: seq<Segment>): bytes
  {
    if segments == [] then [] else segments[0].data + Payloads(segments[1..])
  }

  ghost predicate Contiguous(segments: seq<Segment>)
  {
    forall i :: 0 < i < |segments| ==> segments[i].seqNo == End(segments[i - 1])
  }

  /** Segments follow one another from `start`, and the last one ends exactly `|data|` after it. */
  lemma {:induction false} CutIsContiguous(start: u32, data: bytes)
    ensures var s := Cut(start, data);
            s[0].seqNo == start && Contiguous(s) && End(s[|s| - 1]) == Wrap32(start + |data|)
    decreases |data|
  {
    if |data| > MSS {
      var s, rest := Cut(start, data), Cut(Wrap32(start + MSS), data[MSS..]);
      CutIsContiguous(Wrap32(start + MSS), data[MSS..]);
      WrapAdd(start + MSS, |data| - MSS);
      forall i | 0 < i < |s|
        ensures s[i].seqNo == End(s[i - 1])
      {
        if i > 1 {
          assert s[i] == rest[i - 1] && s[i - 1] == rest[i - 2];
        }
      }
    }
  }

  /** Nothing is lost, repeated or reordered. */
  lemma {:induction false} CutIsExact(start: u32, data: bytes)
    ensures Payloads(Cut(start, data)) == data
    decreases |data|
  {
    var s := Cut(start, data);
    if |data| <= MSS {
      assert Payloads(s) == s[0].data + Payloads(s[1..]);
    } else {
      CutIsExact(Wrap32(start + MSS), data[MSS..]);
      assert s[1..] == Cut(Wrap32(start + MSS), data[MSS..]);
      assert data == data[..MSS] + data[MSS..];
    }
  }

  /** Every segment but the last is full, and only an empty payload gives an empty segment. */
  lemma {:induction false} CutIsFull(start: u32, data: bytes)
    ensures var s := Cut(start, data);
            && (forall i :: 0 <= i < |s| - 1 ==> |s[i].data| == MSS)
            && |s[|s| - 1].data| <= MSS
            && (data != [] ==> s[|s| - 1].data != [])
    decreases |data|
  {
    if |data| > MSS {
      CutIsFull(Wrap32(start + MSS), data[MSS..]);
    }
  }

  /** send_tcp_packet on a connection whose last received acknowledgement is `lastRecvAck`. */
  method SendTcpPacket(lastRecvAck: u32, payload: bytes, payloadLen: u16) returns (sent: seq<Segment>)
    requires payloadLen <= |payload|
    ensures sent == Cut(lastRecvAck, payload[..payloadLen])
  {
    var left: int := payloadLen;
    var already := 0;
    sent := [];
    ghost var data := payload[..payloadLen];
    while true
      invariant 0 <= already <= payloadLen && left == payloadLen - already
      invariant sent + Cut(Wrap32(lastRecvAck + already), data[already..]) == Cut(lastRecvAck, data)
      decreases left
    {
      MinIsMin(left);
      var toSend: int := SeqMin(left, MSS);
      var one := Segment(Wrap32(lastRecvAck + already), payload[already..already + toSend]);
      ghost var rest := data[already..];
      assert rest[..toSend] == one.data && rest[toSend..] == data[already + toSend..];
      WrapAdd(lastRecvAck + already, toSend);
      ghost var before := sent;
      sent := sent + [one];
      left := left - toSend;
      already := already + toSend;
      if left <= 0 {
        assert rest == one.data;
        break;
      }
      assert before + ([one] + Cut(Wrap32(lastRecvAck + already), data[already..]))
             == sent + Cut(Wrap32(lastRecvAck + already), data[already..]);
    }
  }

  lemma MinIsMin(left: u16)
    ensures SeqMin(left, MSS) == if left < MSS then left else MSS
  {
    DiffExact(left, MSS);
  }
}
