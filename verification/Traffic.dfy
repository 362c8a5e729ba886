/** What one datagram achieves: which packets a flush is sure to send, and what their arrival is sure to do. */
module Traffic {
  import opened Arith
  import opened Wire
  import opened Chunks
  import opened Receiving
  import opened Sending
  import opened Control
  import opened Packing
  import opened Engine
  import opened Endpoint
  import opened Flushing
  import opened Network
  import opened Preservation

  // ---- sending ----------------------------------------------------------------

  lemma {:induction false} FlattenIndex(ds: seq<Datagram>, i: nat) returns (k: nat, j: nat)
    requires i < |Flatten(ds)|
    ensures k < |ds| && j < |ds[k]| && ds[k][j] == Flatten(ds)[i]
  {
    if i < |ds[0]| {
      k, j := 0, i;
    } else {
      k, j := FlattenIndex(ds[1..], i - |ds[0]|);
      k := k + 1;
    }
  }

  /** With a socket that takes everything, a flush succeeds and each packet of its plan is in one of its datagrams. */
  lemma PlanIsSent(s: State, limit: nat, i: nat) returns (k: nat, j: nat)
    requires s.clock.updated && i < |FlushPlan(s)| < limit
    ensures var r := Flush(s, limit); r.ok && k < |r.sent| && j < |r.sent[k]| && r.sent[k][j] == FlushPlan(s)[i]
  {
    hide Flush, FlushPlan;
    var m := FlushSends(s, limit);
    var r := Flush(s, limit);
    var plan := FlushPlan(s);
    assert plan[..m] == plan;
    assert Flatten(r.sent) == Flatten(r.sent) + [] == s.buf + plan;
    assert (s.buf + plan)[|s.buf| + i] == plan[i];
    k, j := FlattenIndex(r.sent, |s.buf| + i);
  }

  /** An acknowledgement that is pending is in the plan. */
  lemma AckIsPlanned(s: State, i: nat) returns (k: nat)
    requires i < |s.acks|
    ensures k < |FlushPlan(s)| && FlushPlan(s)[k].cmd == CMD_ACK && FlushPlan(s)[k].sn == s.acks[i].sn
  {
    hide ProbePackets, DuePackets, Admission, RoundOf;
    k := i;
    assert FlushPlan(s)[i] == AckPackets(s, s.acks)[i];
  }

  lemma ProbeIsPlanned(s: State, cmd: u8) returns (k: nat)
    requires (cmd == CMD_WASK && AfterAcks(s).probe.ask) || (cmd == CMD_WINS && AfterAcks(s).probe.tell)
    ensures k < |FlushPlan(s)| && FlushPlan(s)[k].cmd == cmd
  {
    hide AckPackets, DuePackets, Admission, RoundOf, ProbeTimer;
    var acks, probes := AckPackets(s, s.acks), ProbePackets(s, s.acks, AfterAcks(s).probe);
    var j := if cmd == CMD_WINS then |probes| - 1 else 0;
    k := |acks| + j;
    assert FlushPlan(s)[k] == probes[j];
  }

  /** The first kept segment, when it is due, is in the plan, as data. */
  lemma FrontIsPlanned(s: State) returns (k: nat)
    requires Admission(s).buf != [] && !DueOf(RoundOf(s), Admission(s).buf[0]).NotDue?
    requires Admission(s).buf[0].cmd == CMD_PUSH
    ensures k < |FlushPlan(s)| && FlushPlan(s)[k].cmd == CMD_PUSH && FlushPlan(s)[k].sn == Admission(s).buf[0].sn
  {
    hide AckPackets, ProbePackets, DuePackets, Admission, RoundOf, DueOf, Restamped;
    var acks, probes, due := AckPackets(s, s.acks), ProbePackets(s, s.acks, AfterAcks(s).probe),
      DuePackets(RoundOf(s), Admission(s).buf);
    var j := DueIsSent(RoundOf(s), Admission(s).buf, 0);
    RestampedIsSame(RoundOf(s), Admission(s).buf[0]);
    k := |acks| + |probes| + j;
    assert FlushPlan(s)[k] == due[j];
  }

  /** Every packet of a plan announces the receive window as it is at the flush. */
  lemma PlanAnnounces(s: State, k: nat)
    requires k < |FlushPlan(s)|
    ensures FlushPlan(s)[k].wnd == WndUnused(s.rcv, s.cfg.rcvWnd)
  {
    PlanParts(s, k);
    RoundWnd(s);
    hide FlushPlan, Admission, RoundOf, DuePackets, DueOf, Restamped, WndUnused;
    var acks, probes := AckPackets(s, s.acks), ProbePackets(s, s.acks, AfterAcks(s).probe);
    if k >= |acks| + |probes| {
      var e, segs := RoundOf(s), Admission(s).buf;
      var i := DueOrigin(e, segs, k - |acks| - |probes|);
      RestampedIsSame(e, segs[i]);
    }
  }

  lemma RoundWnd(s: State)
    ensures RoundOf(s).wnd == WndUnused(s.rcv, s.cfg.rcvWnd)
  {
  }

  // ---- arriving ---------------------------------------------------------------

  ghost predicate Pending(acks: seq<Ack>, q: u32) { exists i | 0 <= i < |acks| :: acks[i].sn == q }

  lemma PendingAppend(acks: seq<Ack>, a: Ack, q: u32)
    ensures Pending(acks, q) || a.sn == q ==> Pending(acks + [a], q)
  {
    if Pending(acks, q) {
      var i :| 0 <= i < |acks| && acks[i].sn == q;
      assert (acks + [a])[i].sn == q;
    } else if a.sn == q {
      assert (acks + [a])[|acks|].sn == q;
    }
  }

  /** What being in order gives for one side. */
  lemma PairParts(a: Node, b: Node, conv: u32)
    requires Pair(a, b, conv)
    ensures EndInv(a.st) && RcvInv(a.st.rcv, a.st.cfg.rcvWnd)
    ensures SndInv(a.st.snd, a.st.cfg.sndWnd) && a.st.cfg.rcvWnd >= WND_RCV
    ensures a.st.rcv.nxt + |a.st.rcv.buf| <= SEND_LIMIT
    ensures a.st.snd.nxt + |a.st.snd.queue| <= SEND_LIMIT && |b.log| <= SEND_LIMIT
    ensures |a.log| == a.st.snd.nxt && a.st.cfg.mss > 0
  {
    EndInvParts(a.st);
    hide EndInv;
  }

  lemma AcksAfterOne(i: Inflow, p: Packet, q: u32)
    requires RcvInv(i.st.rcv, i.st.cfg.rcvWnd) && i.st.rcv.nxt + |i.st.rcv.buf| < SN_LIMIT
    requires p.cmd == CMD_PUSH ==> p.sn < TWO_31
    ensures Pending(i.st.acks, q) ==> Pending(InputOne(i, p).st.acks, q)
    ensures p.cmd == CMD_PUSH && p.sn == q && q <= i.st.rcv.nxt && i.st.cfg.rcvWnd > 0 ==>
            Pending(InputOne(i, p).st.acks, q)
  {
    hide TakeHeader, TakeAck, TakePush, Pending, RcvInv, Grows, Has, ParseData;
    HeaderParts(i.st, p);
    var s := TakeHeader(i.st, p);
    AckParts(s, p);
    if p.cmd == CMD_PUSH {
      PushFacts(s, p);
    }
    PendingAppend(s.acks, Ack(p.sn, p.ts), q);
  }

  lemma {:induction false} NxtMovesOn(a: Node, b: Node, i: Inflow, ps: seq<Packet>, conv: u32)
    requires Pair(a, b, conv) && AllGood(ps, b.log, b.st.rcv, conv) && i.st == a.st
    ensures a.st.rcv.nxt <= InputAll(i, ps).st.rcv.nxt
  {
    hide InputOne, Pair, Good, EndInv, RcvInv, SndInv;
    if ps != [] {
      var front := ps[..|ps| - 1];
      NxtMovesOn(a, b, i, front, conv);
      InputAllPair(a, b, i, front, conv);
      PairParts(Became(a, InputAll(i, front).st), b, conv);
      InputOneKeeps(InputAll(i, front), ps[|ps| - 1]);
    }
  }

  lemma GoodPush(p: Packet, log: seq<Chunk>, rcv: Receiver, conv: u32)
    requires Good(p, log, rcv, conv) && |log| <= SEND_LIMIT
    ensures p.cmd == CMD_PUSH ==> p.sn < TWO_31
  {
    hide Has;
  }

  /** Data the receiver can take, or has, is acknowledged: once a datagram with number `q` has arrived, the
      acknowledgement of `q` is pending. */
  lemma {:induction false} PushIsAcked(a: Node, b: Node, i: Inflow, ps: seq<Packet>, j: nat, q: u32, conv: u32)
    requires Pair(a, b, conv) && AllGood(ps, b.log, b.st.rcv, conv) && i.st == a.st
    requires j < |ps| && ps[j].cmd == CMD_PUSH && ps[j].sn == q <= a.st.rcv.nxt
    ensures Pending(InputAll(i, ps).st.acks, q)
  {
    hide InputOne, Pending, Pair, Good, EndInv, RcvInv, SndInv;
    var n := |ps| - 1;
    var i' := InputAll(i, ps[..n]);
    InputAllPair(a, b, i, ps[..n], conv);
    PairParts(Became(a, i'.st), b, conv);
    GoodPush(ps[n], b.log, b.st.rcv, conv);
    AcksAfterOne(i', ps[n], q);
    if j < n {
      PushIsAcked(a, b, i, ps[..n], j, q, conv);
    } else {
      NxtMovesOn(a, b, i, ps[..n], conv);
    }
  }

  /** The send buffer after one packet is what it was, or shorter; a number that is gone stays gone. */
  lemma BufferAfterOne(i: Inflow, p: Packet, q: u32, wnd: u16)
    requires SndInv(i.st.snd, wnd)
    ensures var t := InputOne(i, p).st;
            && SndInv(t.snd, wnd) && (t.snd.buf == i.st.snd.buf || |t.snd.buf| < |i.st.snd.buf|)
            && (Keeps(t.snd.buf, q) ==> Keeps(i.st.snd.buf, q))
            && t.snd.queue == i.st.snd.queue && t.snd.nxt == i.st.snd.nxt
            && (p.cmd == CMD_ACK && p.sn == q && q < TWO_31 && i.st.snd.nxt < TWO_31 ==> !Keeps(t.snd.buf, q))
  {
    hide TakeHeader, TakeAck, TakePush, SndInv, Keeps, ParseUna, ParseAck;
    var k := UnaKeeps(i.st.snd, p.una, wnd, q);
    HeaderParts(i.st, p);
    HeaderUna(i.st, p);
    var s := TakeHeader(i.st, p);
    assert k == 0 ==> i.st.snd.buf[0..] == i.st.snd.buf;
    var j := AckKeeps(s.snd, p.sn, wnd, q);
    AckParts(s, p);
    AckUna(s, p);
    PushLeavesSender(s, p);
  }

  lemma HeaderUna(s: State, p: Packet)
    ensures TakeHeader(s, p).snd == Shrink(s.snd.(buf := ParseUna(s.snd.buf, p.una)))
  {
  }

  lemma AckUna(s: State, p: Packet)
    ensures TakeAck(s, p).snd == Shrink(ParseAck(s.snd, p.sn))
  {
    hide ParseAck, UpdateAck;
  }

  lemma PushLeavesSender(s: State, p: Packet)
    ensures TakePush(s, p).snd == s.snd
  {
    hide ParseData, Timediff, Add32;
  }

  /** Through a whole datagram: the buffer is what it was or shorter, and a number that is acknowledged in it
      is gone. */
  lemma {:induction false} BufferAfterAll(i: Inflow, ps: seq<Packet>, q: u32, wnd: u16)
    requires SndInv(i.st.snd, wnd)
    ensures var t := InputAll(i, ps).st;
            && SndInv(t.snd, wnd) && (t.snd.buf == i.st.snd.buf || |t.snd.buf| < |i.st.snd.buf|)
            && (Keeps(t.snd.buf, q) ==> Keeps(i.st.snd.buf, q))
            && t.snd.queue == i.st.snd.queue && t.snd.nxt == i.st.snd.nxt
  {
    hide InputOne, SndInv, Keeps;
    if ps != [] {
      BufferAfterAll(i, ps[..|ps| - 1], q, wnd);
      BufferAfterOne(InputAll(i, ps[..|ps| - 1]), ps[|ps| - 1], q, wnd);
    }
  }

  lemma {:induction false} AckedIsGone(i: Inflow, ps: seq<Packet>, j: nat, q: u32, wnd: u16)
    requires SndInv(i.st.snd, wnd) && i.st.snd.nxt < TWO_31 && q < TWO_31
    requires j < |ps| && ps[j].cmd == CMD_ACK && ps[j].sn == q
    ensures !Keeps(InputAll(i, ps).st.snd.buf, q)
  {
    hide InputOne, SndInv, Keeps;
    var n := |ps| - 1;
    BufferAfterAll(i, ps[..n], q, wnd);
    BufferAfterOne(InputAll(i, ps[..n]), ps[n], q, wnd);
    if j < n {
      AckedIsGone(i, ps[..n], j, q, wnd);
    }
  }

  /** The remote window is the one the last packet announced. */
  lemma WindowAfterAll(i: Inflow, ps: seq<Packet>)
    requires ps != []
    ensures InputAll(i, ps).st.rmtWnd == ps[|ps| - 1].wnd
  {
    hide TakeHeader, TakeAck, TakePush;
    var i', p := InputAll(i, ps[..|ps| - 1]), ps[|ps| - 1];
    HeaderParts(i'.st, p);
    var s := TakeHeader(i'.st, p);
    AckParts(s, p);
    PushLeavesWindow(s, p);
  }

  lemma PushLeavesWindow(s: State, p: Packet)
    ensures var t := TakePush(s, p); t.rmtWnd == s.rmtWnd && t.probe == s.probe && t.cong == s.cong
  {
    hide ParseData, Timediff, Add32;
  }

  lemma OneLeaves(i: Inflow, p: Packet)
    ensures var t := InputOne(i, p).st;
            t.cong == i.st.cong && t.probe == (if p.cmd == CMD_WASK then i.st.probe.(tell := true) else i.st.probe)
  {
    hide TakeHeader, TakeAck, TakePush;
    HeaderParts(i.st, p);
    var s := TakeHeader(i.st, p);
    AckParts(s, p);
    PushLeavesWindow(s, p);
  }

  /** A window probe is heard: the window will be announced. */
  lemma {:induction false} ProbeIsHeard(i: Inflow, ps: seq<Packet>)
    ensures InputAll(i, ps).st.cong == i.st.cong
    ensures i.st.probe.tell || (exists j | 0 <= j < |ps| :: ps[j].cmd == CMD_WASK) ==> InputAll(i, ps).st.probe.tell
  {
    hide InputOne;
    if ps != [] {
      var n := |ps| - 1;
      ProbeIsHeard(i, ps[..n]);
      OneLeaves(InputAll(i, ps[..n]), ps[n]);
      if j :| 0 <= j < |ps| && ps[j].cmd == CMD_WASK {
        assert j < n ==> ps[..n][j].cmd == CMD_WASK;
      }
    }
  }
}
