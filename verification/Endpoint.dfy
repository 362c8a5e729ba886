/** What every operation keeps, whatever datagrams arrive; and what a flush puts on the wire. */
module Endpoint {
  import opened Arith
  import opened Errors
  import opened Wire
  import opened Chunks
  import opened Receiving
  import opened Sending
  import opened Control
  import opened Packing
  import opened Engine

  ghost predicate Light(buf: seq<Segment>, mss: nat) { forall i | 0 <= i < |buf| :: |buf[i].data| <= mss }

  /** The invariant of one endpoint. */
  ghost predicate EndInv(s: State) {
    && ConfigOk(s.cfg)
    && SndInv(s.snd, s.cfg.sndWnd) && QueueShape(s.snd.queue, s.cfg.mss, s.cfg.stream) && Light(s.snd.buf, s.cfg.mss)
    && RcvInv(s.rcv, s.cfg.rcvWnd)
    && (s.cfg.mss < TWO_16 ==> Coherent(s.cong, s.cfg.mss))
    && Size(s.buf) <= s.cfg.mtu && s.probe.wait <= PROBE_LIMIT
  }

  lemma InitialInv(cfg: Config, conv: u32, now: u32)
    requires ConfigOk(cfg)
    ensures EndInv(Initial(cfg, conv, now))
  {
  }

  /** Room for the numbers still to come. */
  predicate SendRoom(s: State) { s.snd.nxt + |s.snd.queue| < SN_LIMIT }

  predicate ReceiveRoom(s: State, n: nat) { s.rcv.nxt + |s.rcv.buf| + n < SN_LIMIT }

  // ---- input keeps the invariant ------------------------------------------------

  ghost predicate Forward(s: State, t: State) {
    s.snd.una <= t.snd.una && s.snd.nxt == t.snd.nxt && s.snd.queue == t.snd.queue && s.rcv.nxt <= t.rcv.nxt &&
      s.cfg == t.cfg
  }

  lemma LightSlice(buf: seq<Segment>, k: nat, mss: nat)
    requires Light(buf, mss) && k <= |buf|
    ensures Light(buf[k..], mss)
  {
  }

  lemma TakeHeaderKeeps(s: State, p: Packet)
    requires EndInv(s)
    ensures EndInv(TakeHeader(s, p)) && Forward(s, TakeHeader(s, p)) && TakeHeader(s, p).rcv == s.rcv
  {
    hide ParseUna, Shrink, QueueShape, RcvInv, Coherent, Size;
    var k := UnaKeeps(s.snd, p.una, s.cfg.sndWnd, 0);
    LightSlice(s.snd.buf, k, s.cfg.mss);
    ShrinkParts(s.snd.(buf := ParseUna(s.snd.buf, p.una)));
  }

  lemma ShrinkParts(s: Sender)
    ensures Shrink(s).nxt == s.nxt && Shrink(s).queue == s.queue && Shrink(s).buf == s.buf
  {
  }

  lemma TakeAckKeeps(s: State, p: Packet)
    requires EndInv(s)
    ensures EndInv(TakeAck(s, p)) && Forward(s, TakeAck(s, p)) && TakeAck(s, p).rcv == s.rcv
  {
    hide RemoveSn, QueueShape, RcvInv, Coherent, Size, UpdateAck, InFlight;
    var k := AckKeeps(s.snd, p.sn, s.cfg.sndWnd, 0);
  }

  lemma TakePushKeeps(s: State, p: Packet)
    requires EndInv(s) && ReceiveRoom(s, 1)
    ensures EndInv(TakePush(s, p)) && Forward(s, TakePush(s, p))
    ensures var t := TakePush(s, p); t.rcv.nxt + |t.rcv.buf| <= s.rcv.nxt + |s.rcv.buf| + 1
  {
    hide ParseData, QueueShape, SndInv, RcvInv, Coherent, Size, Light, Timediff, Add32;
    ParseDataKeeps(s.rcv, p, s.cfg.rcvWnd);
  }

  lemma InputOneKeeps(i: Inflow, p: Packet)
    requires EndInv(i.st) && ReceiveRoom(i.st, 1)
    ensures var j := InputOne(i, p);
            EndInv(j.st) && Forward(i.st, j.st) && j.st.rcv.nxt + |j.st.rcv.buf| <= i.st.rcv.nxt + |i.st.rcv.buf| + 1
  {
    hide TakeHeader, TakeAck, TakePush, SndInv, RcvInv, QueueShape, Light, Coherent, Size;
    TakeHeaderKeeps(i.st, p);
    var s := TakeHeader(i.st, p);
    TakeAckKeeps(s, p);
    TakePushKeeps(s, p);
  }

  lemma {:induction false} InputAllKeeps(i: Inflow, ps: seq<Packet>)
    requires EndInv(i.st) && ReceiveRoom(i.st, |ps|)
    ensures var j := InputAll(i, ps);
            EndInv(j.st) && Forward(i.st, j.st) && j.st.rcv.nxt + |j.st.rcv.buf| <= i.st.rcv.nxt + |i.st.rcv.buf| + |ps|
  {
    hide InputOne, EndInv;
    if ps != [] {
      InputAllKeeps(i, ps[..|ps| - 1]);
      InputOneKeeps(InputAll(i, ps[..|ps| - 1]), ps[|ps| - 1]);
    }
  }

  lemma ConcludeKeeps(i: Inflow, oldUna: u32)
    requires EndInv(i.st)
    ensures EndInv(Conclude(i, oldUna)) && Forward(i.st, Conclude(i, oldUna))
  {
    hide ParseFastack, Grow, QueueShape, RcvInv, Size, Coherent;
    FastackKeeps(i.st.snd, i.maxAck, i.st.cfg.sndWnd);
    FastackParts(i.st.snd, i.maxAck);
    if i.st.cfg.mss < TWO_16 {
      GrowKeeps(i.st.cong, i.st.rmtWnd, i.st.cfg.mss);
    }
  }

  lemma FastackParts(s: Sender, sn: u32)
    ensures ParseFastack(s, sn).una == s.una && ParseFastack(s, sn).nxt == s.nxt && ParseFastack(s, sn).queue == s.queue
  {
  }

  /** Any bytes at all, once decoded: the invariant is kept, and neither `una` nor `rcv.nxt` goes back. */
  lemma InputKeeps(s: State, b: seq<byte>)
    requires EndInv(s) && ReceiveRoom(s, |b|)
    ensures EndInv(Input(s, b).st) && Forward(s, Input(s, b).st)
  {
    if |b| >= OVERHEAD {
      var r := Parse(b, s.conv, s.inputConv);
      PacketsAreFew(b, s.conv, s.inputConv);
      InputAllKeeps(Inflow(s, false, 0), r.packets);
      var i := InputPackets(s, r.packets);
      var j := i.(st := i.st.(conv := r.conv, inputConv := r.inputConv));
      assert EndInv(j.st);
      InputAllConfig(Inflow(s, false, 0), r.packets);
      hide EndInv, Parse;
      ConcludeKeeps(j, s.snd.una);
    }
  }

  /** The same for the bytes of the socket, however short, decoded or not. */
  lemma IntakeKeeps(s: State, key: Option<Key>, b: seq<byte>, decode: bool)
    requires EndInv(s) && ReceiveRoom(s, |b|) && s.cfg.mss > 0
    ensures var t := Intake(s, key, b, decode).st; EndInv(t) && Forward(s, t)
  {
    hide EndInv, Input, Seal;
    if !(decode && |b| < 4) {
      InputKeeps(s, if decode then Seal(key, b) else b);
    }
  }

  lemma {:induction false} PacketsAreFew(b: seq<byte>, conv: u32, inputConv: bool)
    ensures |Parse(b, conv, inputConv).packets| <= |b|
    decreases |b|
  {
    if Parse(b, conv, inputConv).packets != [] {
      var n, c, w := ParseUnfold(b, conv, inputConv);
      PacketsAreFew(b[n..], c, w);
    }
  }
}
