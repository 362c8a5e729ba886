/** Two endpoints over a network that loses, duplicates and reorders datagrams but does not alter them. */
module Network {
  import opened Arith
  import opened Errors
  import opened Wire
  import opened Chunks
  import opened Receiving
  import opened Sending
  import opened Control
  import opened Packing
  import opened Engine
  import opened Endpoint
  import opened Flushing

  /** An endpoint with its history: the chunks it has numbered, the byte strings its `send` calls have
      taken over, those its `recv` calls have returned, and every datagram it has ever sent. */
  datatype Node = Node(st: State, log: seq<Chunk>, sent: seq<seq<byte>>, got: seq<seq<byte>>, net: set<Datagram>)

  datatype System = System(left: Node, right: Node, key: Option<Key>)

  datatype Side = Left | Right

  function Other(side: Side): Side { if side.Left? then Right else Left }

  function At(s: System, side: Side): Node { if side.Left? then s.left else s.right }

  function With(s: System, side: Side, n: Node): System { if side.Left? then s.(left := n) else s.(right := n) }

  /** One step. `Deliver` hands a datagram the other side has sent at some time to this side. */
  datatype Action =
    | DoSend(side: Side, data: seq<byte>)
    | DoRecv(side: Side, size: nat)
    | DoUpdate(side: Side, now: u32, limit: nat)
    | DoFlush(side: Side, limit: nat)
    | DoFlushAck(side: Side, limit: nat)
    | Deliver(side: Side, d: Datagram)

  /** The numbering of segments stays below this. */
  const SEND_LIMIT := SN_LIMIT - 0x400

  function NodeSend(n: Node, data: seq<byte>): Node
    requires n.st.cfg.mss > 0
  {
    if n.st.snd.nxt + |n.st.snd.queue| + FRAGMENT_LIMIT > SEND_LIMIT then n
    else
      var q, mss, stream := n.st.snd.queue, n.st.cfg.mss, n.st.cfg.stream;
      var r := SendData(n.st, data);
      n.(st := r.st, sent := if r.result.Ok? || stream then n.sent + [Taken(q, data, mss, stream)] else n.sent)
  }

  function NodeRecv(n: Node, size: nat): Node {
    var r := Receive(n.st, size);
    n.(st := r.st, got := if r.result.Ok? then n.got + [r.result.value] else n.got)
  }

  /** Flushing numbers what leaves the send queue. */
  function NodeFlushed(n: Node, r: Outcome): Node {
    var k := |n.st.snd.queue| - |r.st.snd.queue|;
    n.(st := r.st, net := n.net + (set i | 0 <= i < |r.sent| :: r.sent[i]),
       log := if k > 0 then n.log + n.st.snd.queue[..k] else n.log)
  }

  function NodeInput(n: Node, w: seq<byte>, key: Option<Key>): Node
    requires n.st.cfg.mss > 0
  {
    n.(st := Intake(n.st, key, w, true).st)
  }

  predicate Runnable(s: System) { s.left.st.cfg.mss > 0 && s.right.st.cfg.mss > 0 }

  function Step(s: System, a: Action): System
    requires Runnable(s)
  {
    var n := At(s, a.side);
    match a
    case DoSend(_, data) => With(s, a.side, NodeSend(n, data))
    case DoRecv(_, size) => With(s, a.side, NodeRecv(n, size))
    case DoUpdate(_, now, limit) => With(s, a.side, NodeFlushed(n, Update(n.st, now, limit)))
    case DoFlush(_, limit) => With(s, a.side, NodeFlushed(n, FlushAsync(n.st, limit)))
    case DoFlushAck(_, limit) =>
      if n.st.clock.updated then With(s, a.side, NodeFlushed(n, FlushAck(n.st, limit))) else s
    case Deliver(_, d) =>
      if d in At(s, Other(a.side)).net then With(s, a.side, NodeInput(n, OnWire(s.key, d), s.key)) else s
  }

  function Fresh(cfg: Config, conv: u32, now: u32): Node { Node(Initial(cfg, conv, now), [], [], [], {}) }

  /** Two new endpoints of one conversation. */
  predicate Begins(s: System, conv: u32) {
    && ConfigOk(s.left.st.cfg) && ConfigOk(s.right.st.cfg)
    && s.left == Fresh(s.left.st.cfg, conv, s.left.st.clock.current)
    && s.right == Fresh(s.right.st.cfg, conv, s.right.st.clock.current)
  }

  // ---- the invariant ----------------------------------------------------------

  /** The truth about a packet its sender emitted, given what the sender has numbered and received. */
  ghost predicate Good(p: Packet, log: seq<Chunk>, rcv: Receiver, conv: u32) {
    && Sendable(p, conv) && p.una <= rcv.nxt
    && (p.cmd == CMD_PUSH ==> p.sn < |log| && log[p.sn] == ChunkOf(p))
    && (p.cmd == CMD_ACK ==> p.sn < TWO_31 && Has(rcv, p.sn))
  }

  ghost predicate AllGood(ps: seq<Packet>, log: seq<Chunk>, rcv: Receiver, conv: u32) {
    forall i | 0 <= i < |ps| :: Good(ps[i], log, rcv, conv)
  }

  ghost predicate NetGood(net: set<Datagram>, log: seq<Chunk>, rcv: Receiver, conv: u32) {
    forall d | d in net :: d != [] && AllGood(d, log, rcv, conv)
  }

  ghost predicate SegmentsGood(buf: seq<Segment>, log: seq<Chunk>, conv: u32) {
    forall i | 0 <= i < |buf| ::
      buf[i].cmd == CMD_PUSH && buf[i].conv == conv && buf[i].sn < |log| && log[buf[i].sn] == ChunkOfSegment(buf[i])
  }

  ghost predicate AcksGood(acks: seq<Ack>, rcv: Receiver) {
    forall i | 0 <= i < |acks| :: acks[i].sn < TWO_31 && Has(rcv, acks[i].sn)
  }

  ghost predicate Own(n: Node, conv: u32) {
    && EndInv(n.st) && n.st.conv == conv && !n.st.inputConv
    && |n.log| == n.st.snd.nxt && n.st.snd.nxt + |n.st.snd.queue| <= SEND_LIMIT
    && n.st.rcv.nxt + |n.st.rcv.buf| <= SEND_LIMIT
  }

  /** Every byte taken over is numbered or queued; in message mode so are the message boundaries, and in
      stream mode there are none. */
  ghost predicate Accounted(cs: seq<Chunk>, sent: seq<seq<byte>>, mss: nat, stream: bool)
    requires mss > 0
  {
    && Bytes(cs) == Flatten(sent)
    && (stream ==> Unframed(cs))
    && (!stream ==> cs == Framed(sent, mss) && forall i | 0 <= i < |sent| :: MessageChunks(sent[i], mss) != [])
  }

  ghost predicate Unframed(cs: seq<Chunk>) { forall i | 0 <= i < |cs| :: cs[i].frg == 0 }

  ghost predicate NodeInv(n: Node, conv: u32) {
    && Own(n, conv) && Accounted(n.log + n.st.snd.queue, n.sent, n.st.cfg.mss, n.st.cfg.stream)
    && SegmentsGood(n.st.snd.buf, n.log, conv) && AcksGood(n.st.acks, n.st.rcv)
    && AllGood(n.st.buf, n.log, n.st.rcv, conv) && NetGood(n.net, n.log, n.st.rcv, conv)
  }

  /** A receiver holds what the log says. */
  ghost predicate Matches(r: Receiver, log: seq<Chunk>) {
    && r.nxt <= |log| && |r.queue| <= r.nxt && ChunksOf(r.queue) == log[r.nxt - |r.queue|..r.nxt]
    && forall i | 0 <= i < |r.buf| :: r.buf[i].sn < |log| && log[r.buf[i].sn] == ChunkOf(r.buf[i])
  }

  /** What `recv` has returned is what was numbered up to the front of the receive queue; in message mode
      it is a number of whole messages. */
  ghost predicate Delivered(log: seq<Chunk>, sent: seq<seq<byte>>, cfg: Config, r: Receiver, got: seq<seq<byte>>)
    requires cfg.mss > 0
  {
    && |r.queue| <= r.nxt <= |log|
    && Bytes(log[..r.nxt - |r.queue|]) == Flatten(got)
    && (!cfg.stream ==> got <= sent && r.nxt - |r.queue| == |Framed(got, cfg.mss)|)
  }

  ghost predicate NothingLost(buf: seq<Segment>, log: seq<Chunk>, r: Receiver) {
    forall sn: u32 | sn < |log| :: Keeps(buf, sn) || Has(r, sn)
  }

  /** The relation between a sending and a receiving node. */
  ghost predicate Link(a: Node, b: Node)
    requires a.st.cfg.mss > 0
  {
    && Matches(b.st.rcv, a.log)
    && Delivered(a.log, a.sent, a.st.cfg, b.st.rcv, b.got)
    && NothingLost(a.st.snd.buf, a.log, b.st.rcv)
  }

  ghost predicate Inv(s: System, conv: u32) {
    && NodeInv(s.left, conv) && NodeInv(s.right, conv)
    && Link(s.left, s.right) && Link(s.right, s.left)
  }
}
