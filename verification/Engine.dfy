/** One endpoint as a value: its state, and what each operation of the engine makes of it. */
module Engine {
  import opened Arith
  import opened Errors
  import opened Wire
  import opened Chunks
  import opened Receiving
  import opened Sending
  import opened Control
  import opened Packing

  const WND_SND: u16 := 32
  const WND_RCV: u16 := 128
  const MTU_DEF := 1400
  const INTERVAL: u32 := 100
  const PROBE_INIT: u32 := 7000
  const PROBE_LIMIT: u32 := 120000

  datatype Config = Config(mtu: nat, mss: u32, sndWnd: u16, rcvWnd: u16, interval: u32, nodelay: bool, minRto: u32,
                           fastresend: u32, nocwnd: bool, stream: bool, deadLink: u32)

  /** What `construct` and the setters guarantee of a configuration. */
  predicate ConfigOk(c: Config) { c.mtu >= 50 && c.mss == c.mtu - OVERHEAD && c.sndWnd > 0 && c.rcvWnd >= WND_RCV }

  datatype Ack = Ack(sn: u32, ts: u32)

  /** `ask` and `tell` are the two bits of the probe field. */
  datatype Probe = Probe(ask: bool, tell: bool, ts: u32, wait: u32)

  datatype Clock = Clock(current: u32, flushAt: u32, updated: bool)

  datatype State = State(cfg: Config, conv: u32, inputConv: bool, snd: Sender, rcv: Receiver, acks: seq<Ack>,
                         cong: Congestion, rmtWnd: u16, rtt: Rtt, probe: Probe, clock: Clock, xmit: u32, dead: bool,
                         buf: Datagram)

  function DefaultConfig(stream: bool): Config {
    Config(MTU_DEF, MTU_DEF - OVERHEAD, WND_SND, WND_RCV, INTERVAL, false, RTO_MIN, 0, false, stream, 10)
  }

  function Initial(cfg: Config, conv: u32, now: u32): State {
    State(cfg, conv, false, Sender(0, 0, [], []), Receiver(0, [], []), [], Congestion(0, 0, THRESH_INIT), WND_RCV,
          Rtt(0, 0, RTO_DEF), Probe(false, false, 0, 0), Clock(now, INTERVAL, false), 0, false, [])
  }

  // ---- input ------------------------------------------------------------------

  /** The engine in the middle of a datagram: whether an acknowledgement was seen, and the highest one. */
  datatype Inflow = Inflow(st: State, flag: bool, maxAck: u32)

  function TakeHeader(s: State, p: Packet): State {
    s.(rmtWnd := p.wnd, snd := Shrink(s.snd.(buf := ParseUna(s.snd.buf, p.una))))
  }

  function TakeAck(s: State, p: Packet): State {
    var rtt := Timediff(s.clock.current, p.ts);
    s.(rtt := if rtt >= 0 then UpdateAck(s.rtt, rtt, s.cfg.interval, s.cfg.minRto) else s.rtt,
       snd := Shrink(ParseAck(s.snd, p.sn)))
  }

  function TakePush(s: State, p: Packet): State {
    if Timediff(p.sn, Add32(s.rcv.nxt, s.cfg.rcvWnd)) < 0 then
      s.(acks := s.acks + [Ack(p.sn, p.ts)],
         rcv := if Timediff(p.sn, s.rcv.nxt) >= 0 then ParseData(s.rcv, p, s.cfg.rcvWnd) else s.rcv)
    else s
  }

  function InputOne(i: Inflow, p: Packet): Inflow {
    var s := TakeHeader(i.st, p);
    if p.cmd == CMD_ACK then
      Inflow(TakeAck(s, p), true, if !i.flag || Timediff(p.sn, i.maxAck) > 0 then p.sn else i.maxAck)
    else if p.cmd == CMD_PUSH then i.(st := TakePush(s, p))
    else if p.cmd == CMD_WASK then i.(st := s.(probe := s.probe.(tell := true)))
    else i.(st := s)
  }

  function InputAll(i: Inflow, ps: seq<Packet>): Inflow {
    if ps == [] then i else InputOne(InputAll(i, ps[..|ps| - 1]), ps[|ps| - 1])
  }

  /** What `input` does after its loop. */
  function Conclude(i: Inflow, oldUna: u32): State
    requires i.st.cfg.mss > 0
  {
    var s := if i.flag then i.st.(snd := ParseFastack(i.st.snd, i.maxAck)) else i.st;
    if s.snd.una > oldUna then s.(cong := Grow(s.cong, s.rmtWnd, s.cfg.mss)) else s
  }

  function InputPackets(s: State, ps: Datagram): (i: Inflow) { InputAll(Inflow(s, false, 0), ps) }

  lemma InputOneConfig(i: Inflow, p: Packet)
    ensures var t := InputOne(i, p).st;
            t.cfg == i.st.cfg && t.clock == i.st.clock && t.conv == i.st.conv && t.inputConv == i.st.inputConv
  {
    hide ParseUna, ParseAck, UpdateAck, ParseData, Timediff, Add32, Shrink;
  }

  lemma {:induction false} InputAllConfig(i: Inflow, ps: seq<Packet>)
    ensures InputAll(i, ps).st.cfg == i.st.cfg && InputAll(i, ps).st.clock == i.st.clock
    ensures InputAll(i, ps).st.conv == i.st.conv && InputAll(i, ps).st.inputConv == i.st.inputConv
  {
    hide InputOne;
    if ps != [] {
      InputAllConfig(i, ps[..|ps| - 1]);
      InputOneConfig(InputAll(i, ps[..|ps| - 1]), ps[|ps| - 1]);
    }
  }

  datatype InputResult = InputResult(st: State, result: Result<nat>)

  /** `input` on the bytes of a datagram, decoded: a datagram that turns out malformed on the way keeps
      the effect of the segments before, but not what follows the loop. */
  function Input(s: State, b: seq<byte>): InputResult
    requires s.cfg.mss > 0
  {
    if |b| < OVERHEAD then InputResult(s, Err(InvalidSegmentSize(|b|)))
    else
      var r := Parse(b, s.conv, s.inputConv);
      InputAllConfig(Inflow(s, false, 0), r.packets);
      var i := InputPackets(s, r.packets);
      var j := i.(st := i.st.(conv := r.conv, inputConv := r.inputConv));
      match r.end
      case Failed(e) => InputResult(j.st, Err(e))
      case Consumed(rest) => InputResult(Conclude(j, s.snd.una), Ok(|b| - rest))
  }

  /** `input` on the bytes as the socket gives them. Decoding starts at position 4 before the length is looked
      at, so that with fewer bytes the call panics, having changed nothing. */
  function Intake(s: State, key: Option<Key>, b: seq<byte>, decode: bool): InputResult
    requires s.cfg.mss > 0
  {
    if decode && |b| < 4 then InputResult(s, Err(Panic)) else Input(s, if decode then Seal(key, b) else b)
  }

  /** That is the one way it can panic. */
  lemma PanicExactly(s: State, key: Option<Key>, b: seq<byte>, decode: bool)
    requires s.cfg.mss > 0
    ensures Intake(s, key, b, decode).result == Err(Panic) <==> decode && |b| < 4
  {
    hide Parse, Seal, Conclude, InputPackets;
    if !(decode && |b| < 4) {
      ParseErrors(if decode then Seal(key, b) else b, s.conv, s.inputConv);
    }
  }

  /** Without decoding the bytes are taken as they are. */
  lemma IntakePlain(s: State, key: Option<Key>, b: seq<byte>)
    requires s.cfg.mss > 0
    ensures Intake(s, key, b, false) == Input(s, b)
  {
  }

  // ---- send and recv ------------------------------------------------------------

  datatype Sent = Sent(st: State, result: Result<nat>)

  function SendData(s: State, data: seq<byte>): Sent
    requires s.cfg.mss > 0
  {
    var sub := Send(s.snd.queue, data, s.cfg.mss, s.cfg.stream);
    Sent(s.(snd := s.snd.(queue := sub.queue)), sub.result)
  }

  datatype Received = Received(st: State, result: Result<seq<byte>>)

  /** `recv` with a buffer of `size` bytes; an error leaves the endpoint as it was. */
  function Receive(s: State, size: nat): Received {
    match Recv(s.rcv, s.cfg.rcvWnd, size)
    case Err(e) => Received(s, Err(e))
    case Ok(r) => Received(s.(rcv := r.rcv, probe := s.probe.(tell := s.probe.tell || r.tell)), Ok(r.data))
  }

  // ---- flush ------------------------------------------------------------------

  function AckPackets(s: State, acks: seq<Ack>): (ps: seq<Packet>)
    ensures |ps| == |acks|
  {
    var wnd := WndUnused(s.rcv, s.cfg.rcvWnd);
    seq(|acks|, i requires 0 <= i < |acks| => Packet(s.conv, CMD_ACK, 0, wnd, acks[i].ts, acks[i].sn, s.rcv.nxt, []))
  }

  /** A probe command. It carries the number and time stamp the acknowledgement loop left behind. */
  function ProbePacket(s: State, acks: seq<Ack>, cmd: u8): Packet {
    var last := if acks == [] then Ack(0, 0) else acks[|acks| - 1];
    Packet(s.conv, cmd, 0, WndUnused(s.rcv, s.cfg.rcvWnd), last.ts, last.sn, s.rcv.nxt, [])
  }

  function ProbePackets(s: State, acks: seq<Ack>, probe: Probe): seq<Packet> {
    (if probe.ask then [ProbePacket(s, acks, CMD_WASK)] else []) +
      (if probe.tell then [ProbePacket(s, acks, CMD_WINS)] else [])
  }

  function ProbeTimer(p: Probe, rmtWnd: u16, current: u32): Probe {
    if rmtWnd != 0 then p.(ts := 0, wait := 0)
    else if p.wait == 0 then p.(wait := PROBE_INIT, ts := Add32(current, PROBE_INIT))
    else if Timediff(current, p.ts) >= 0 then
      var base := Max(p.wait, PROBE_INIT);
      var wait := Min(Add32(base, base / 2), PROBE_LIMIT);
      p.(wait := wait, ts := Add32(current, wait), ask := true)
    else p
  }

  function UsedWindow(s: State): u16 {
    var w := Min(s.cfg.sndWnd, s.rmtWnd);
    if s.cfg.nocwnd then w else Min(s.cong.cwnd, w)
  }

  function StampOf(s: State): Stamp {
    Stamp(s.conv, WndUnused(s.rcv, s.cfg.rcvWnd), s.clock.current, s.rcv.nxt, s.rtt.rto)
  }

  function Resent(c: Config): u32 { if c.fastresend > 0 then c.fastresend else TWO_32 - 1 }

  function RoundOf(s: State): Round {
    Round(s.clock.current, s.rtt.rto, s.cfg.nodelay, Resent(s.cfg), WndUnused(s.rcv, s.cfg.rcvWnd), s.rcv.nxt,
      s.cfg.mtu, s.cfg.deadLink)
  }

  datatype Outcome = Outcome(st: State, sent: seq<Datagram>, ok: bool)

  function Start(s: State, limit: nat): Out { Out(s.buf, [], limit, true) }

  /** After the acknowledgements, and after the probe commands. */
  function AfterAcks(s: State): State { s.(acks := [], probe := ProbeTimer(s.probe, s.rmtWnd, s.clock.current)) }

  function AfterProbes(s: State): State {
    var p := AfterAcks(s);
    p.(probe := p.probe.(ask := false, tell := false))
  }

  function Admission(s: State): Sender { Admit(s.snd, UsedWindow(s), StampOf(s)) }

  /** The data part of a flush, from the output the acknowledgements and probes have left. */
  function Transmission(s: State, o: Out): Tx {
    TxAll(RoundOf(s), Tx([], o, false, 0, s.xmit, s.dead), Admission(s).buf)
  }

  function Transmit(s: State, o: Out): Outcome {
    var snd := Admission(s);
    var tx := Transmission(s, o);
    var out := Finish(tx.out);
    var t := s.(snd := snd.(buf := tx.done), xmit := tx.xmit, dead := tx.dead, buf := out.buf);
    if !out.ok then Outcome(t, out.sent, false)
    else
      var cong := Settle(s.cong, tx.change > 0, tx.lost, Wrap32(snd.nxt - snd.una), Resent(s.cfg), UsedWindow(s),
        s.cfg.mss);
      Outcome(t.(cong := cong), out.sent, true)
  }

  /** `flush`, when the socket takes `limit` more datagrams before it fails. */
  function Flush(s: State, limit: nat): Outcome {
    if !s.clock.updated then Outcome(s, [], true)
    else
      var o1 := PutAll(Start(s, limit), AckPackets(s, s.acks), s.cfg.mtu);
      if !o1.ok then Outcome(s.(buf := o1.buf), o1.sent, false)
      else
        var o2 := PutAll(o1, ProbePackets(s, s.acks, AfterAcks(s).probe), s.cfg.mtu);
        if !o2.ok then Outcome(AfterAcks(s).(buf := o2.buf), o2.sent, false)
        else Transmit(AfterProbes(s), o2)
  }

  function FlushAck(s: State, limit: nat): Outcome
    requires s.clock.updated
  {
    var o := PutAll(Start(s, limit), AckPackets(s, s.acks), s.cfg.mtu);
    Outcome((if o.ok then s.(acks := []) else s).(buf := o.buf), o.sent, o.ok)
  }

  // ---- the clock --------------------------------------------------------------

  function Touch(c: Clock, now: u32): Clock { if c.updated then c.(current := now) else Clock(now, now, true) }

  function FlushAsync(s: State, limit: nat): Outcome {
    Flush(s.(clock := Touch(s.clock, Add32(s.clock.current, 10))), limit)
  }

  const SLAP := 10000

  /** Whether an update at the clock's time flushes, and with which next flush time. */
  function Slap(c: Clock): (int, u32) {
    var slap := Timediff(c.current, c.flushAt);
    if -SLAP <= slap < SLAP then (slap, c.flushAt) else (0, c.current)
  }

  function Schedule(c: Clock, interval: u32): Clock {
    var next := Add32(Slap(c).1, interval);
    c.(flushAt := if Timediff(c.current, next) >= 0 then Add32(c.current, interval) else next)
  }

  function Update(s: State, now: u32, limit: nat): Outcome {
    var c := Touch(s.clock, now);
    if Slap(c).0 >= 0 then Flush(s.(clock := Schedule(c, s.cfg.interval)), limit)
    else Outcome(s.(clock := c), [], true)
  }

  /** The time to the earliest retransmission, zero when one is due. */
  function PacketWait(buf: seq<Segment>, now: u32): (w: u32) {
    if buf == [] then TWO_32 - 1
    else
      var diff := Timediff(buf[0].resendts, now);
      if diff <= 0 then 0 else Min(diff, PacketWait(buf[1..], now))
  }

  function Check(s: State, now: u32): u32 {
    if !s.clock.updated then 0
    else
      var diff := Timediff(now, s.clock.flushAt);
      if diff >= 0 || diff < -SLAP then 0
      else Min(Min(PacketWait(s.snd.buf, now), Timediff(s.clock.flushAt, now) % TWO_32), s.cfg.interval)
  }

  function WaitSnd(s: State): nat { |s.snd.buf| + |s.snd.queue| }
}
