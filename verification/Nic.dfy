/** A NIC connection (tcp_connection_t and its session): TCP numbers, the meta header, the migration and
    steering flags. Each function is one routine of tcp.c; `Step` is one event at one connection slot. */
module Nic {
  import opened Bytes
  import opened Tls
  import opened Handshake
  import opened SeqNum
  import opened Segments
  import opened Session
  import Der

  datatype Tuple = Tuple(clientIp: u32, clientPort: u16, serverIp: u32, serverPort: u16)

  /** server_seq_num and server_ack_num of a meta header. */
  datatype Pair = Pair(seqNo: u32, ackNo: u32)

  datatype KeyMeta = KeyMeta(tuple: Tuple, pair: Pair, keys: AppKeys, inc: nat)

  datatype Conn = Conn(
    live: bool,                  // in the active table, not in the free queue
    idle: bool,                  // state is TCP_SESSION_IDLE
    inc: nat,                    // which opening of a slot this is: a history variable
    tuple: Tuple,
    cookie: u32,
    w: Window,                   // last_recv_seq, last_recv_ack, last_recv_len, last_sent_ack
    onload: bool,
    recvMigFin: bool,
    hwsInserted: bool,
    hwsApplied: bool,
    readyToDel: bool,
    pending: bytes,              // pending_app_data[..pending_app_data_len]
    header: Pair,                // the pair held in meta_hdr
    hs: Hs,
    matched: Option<Pair>,       // the pair of the mig-fin that matched: a history variable
    sent: nat)                   // payload bytes put on the wire so far: a history variable

  datatype NicOut = NicOut(c: Conn, meta: Option<KeyMeta>, wire: seq<Segment>, toHost: Option<bytes>)

  function Silent(c: Conn): NicOut { NicOut(c, None, [], None) }

  const NO_TUPLE := Tuple(0, 0, 0, 0)

  // ---------------------------------------------------------------- slots

  /** clear_ssl_session and clear_tcp_connection. Of meta_hdr only the first pointer-size bytes are
      cleared, which hold the padding and server_seq_num: server_ack_num survives. */
  function Removed(c: Conn): Conn
  {
    Conn(false, true, c.inc, NO_TUPLE, c.cookie, Window(0, 0, 0, 0), false, false, false, false, false, [],
         Pair(0, c.header.ackNo), Cleared(c.hs.serverRecords), None, 0)
  }

  /** insert_tcp_connection on a slot from the free queue, which it asserts to be idle; the session is taken as
      it is. */
  function Opened(c: Conn, inc: nat, tuple: Tuple, cookie: u32, seqNo: u32, len: u16): Conn
  {
    c.(live := true, idle := false, inc := inc, tuple := tuple, cookie := cookie,
       w := Window(Wrap32(seqNo + 1), Wrap32(cookie + 1), len, Wrap32(seqNo + 1)))
  }

  // ---------------------------------------------------------------- meta packets

  /** send_key_meta */
  function SendKeyMeta(c: Conn): NicOut
  {
    var pair := Pair(Wrap32(c.w.recvAck + |c.hs.buffer|), Wrap32(c.w.recvSeq + c.w.recvLen + 80));
    NicOut(c.(header := pair), Some(KeyMeta(c.tuple, pair, c.hs.app, c.inc)), [], None)
  }

  /** process_host_mig_fin: a mismatch rewrites the header through send_rst_conn_meta. */
  function HostMigFin(c: Conn, pair: Pair): NicOut
  {
    if pair == c.header then Silent(c.(recvMigFin := true, matched := Some(pair)))
    else Silent(c.(header := Pair(Wrap32(c.w.recvAck + |c.hs.buffer|), Wrap32(c.w.recvSeq + c.w.recvLen))))
  }

  /** process_host_close */
  function HostClose(c: Conn, pair: Pair): NicOut
  {
    Silent(if pair == c.header then c.(readyToDel := true) else c)
  }

  // ---------------------------------------------------------------- segments from the client

  /** send_tcp_packet as far as later classification and slot reuse see it. */
  function Acked(c: Conn): Conn
  {
    c.(idle := false, w := c.w.(sentAck := EndOf(c.w)))
  }

  /** process_handshake_packet up to process_ssl_packet, whose complete records follow as events. */
  function Arrived(c: Conn, seqNo: u32, ackNo: u32, len: u16, packet: bytes): Conn
  {
    if c.onload then c.(pending := packet)
    else
      match Validate(c.w, seqNo, ackNo, len)
      case SeqOk => c.(w := Window(seqNo, ackNo, len, c.w.sentAck))
      case SeqOver => Acked(c)
      case SeqUnder => c
      case Weird => c
  }

  /** process_ack_packet */
  function PureAck(c: Conn, ackNo: u32, len: u16, packet: bytes): Conn
  {
    if !(ackNo == Wrap32(c.cookie + 1) && len == 0) && c.onload then c.(pending := packet) else c
  }

  /** send_tcp_packet takes its length as a `uint16_t`. */
  function Truncated(data: bytes): bytes
  {
    data[..|data| % 0x1_0000]
  }

  /** What the connection does with the outcome of a session routine. A session that turns active has sent an
      acknowledgement. */
  function AfterTls(c: Conn, o: Out): NicOut
  {
    if o.verdict == Abort then Silent(Removed(c.(hs := o.h)))
    else
      var c1 := c.(hs := o.h, onload := c.onload || o.h.state.Active?, idle := c.idle && !o.h.state.Active?);
      if o.meta then SendKeyMeta(c1)
      else if o.wire.Some? then
        var data := Truncated(o.wire.value);
        NicOut(Acked(c1).(sent := if |data| > c1.sent then |data| else c1.sent), None, Cut(c1.w.recvAck, data), None)
      else Silent(c1)
  }

  // ---------------------------------------------------------------- the sweep

  /** apply_hws with REMOVE_HWS */
  function ApplyHws(c: Conn): Conn
  {
    if c.hs.state.Active? && c.recvMigFin && !c.hwsInserted then c.(hwsInserted := true, hwsApplied := true) else c
  }

  /** remove_hws */
  function RemoveHws(c: Conn): Conn
  {
    if c.hwsApplied && c.readyToDel then Removed(c) else c
  }

  /** forward_app_data */
  function ForwardAppData(c: Conn): NicOut
  {
    if c.hwsApplied && c.pending != [] then NicOut(c.(pending := []), None, [], Some(c.pending)) else Silent(c)
  }

  datatype NicEvent =
    | Segment(seqNo: u32, ackNo: u32, len: u16, packet: bytes)
    | Ack(ackNo: u32, len: u16, packet: bytes)
    | Incomplete                    // the session needs more bytes: a bare ACK goes out
    | Record(r: Rec)
    | Queue
    | PkaResult(result: (Der.Operand, Der.Operand))
    | Resume(random: b32)
    | Apply
    | Remove
    | Forward
    | Remain
    | MigFin(pair: Pair)
    | Close(pair: Pair)
    | Drop                          // remove_session for a new SYN

  /** The session event behind a connection event, if any. */
  function TlsEvent(c: Conn, e: NicEvent): Option<Event>
  {
    match e
    case Record(r) => Some(Packet(r))
    case Queue => Some(Drain)
    case PkaResult(result) => Some(Result(result))
    case Resume(random) => Some(Resumption(random))
    case Remain => Some(Flush(c.recvMigFin))
    case _ => None
  }

  /** The event does not end the process. */
  predicate Survives(c: Conn, p: Prims, cert: bytes, e: NicEvent)
  {
    TlsEvent(c, e).Some? ==> Session.Apply(c.hs, p, cert, TlsEvent(c, e).value).verdict != Exit
  }

  /** The event can reach the slot. The loop of process_new_record reads on after an abort, so records, and the
      answer to a request they made, reach a slot that is already free. */
  predicate Reaches(c: Conn, e: NicEvent)
  {
    c.live || e.Record? || e.Incomplete? || (e.PkaResult? && c.hs.pendingOp.Some?)
  }

  /** One event at a connection slot. */
  function Step(c: Conn, p: Prims, cert: bytes, e: NicEvent): NicOut
  {
    if TlsEvent(c, e).Some? then AfterTls(c, Session.Apply(c.hs, p, cert, TlsEvent(c, e).value))
    else
      match e
      case Segment(seqNo, ackNo, len, packet) => Silent(Arrived(c, seqNo, ackNo, len, packet))
      case Ack(ackNo, len, packet) => Silent(PureAck(c, ackNo, len, packet))
      case Incomplete => Silent(Acked(c))
      case Apply => Silent(ApplyHws(c))
      case Remove => Silent(RemoveHws(c))
      case Forward => ForwardAppData(c)
      case MigFin(pair) => HostMigFin(c, pair)
      case Close(pair) => HostClose(c, pair)
      case _ => Silent(Removed(c))
  }
}
