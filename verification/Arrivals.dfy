/** What one datagram does to an endpoint, told from its segments and the endpoint before it. Numbers are taken to
    stay below 2^31, as everywhere. */
module Arrivals {
  import opened Arith
  import opened Errors
  import opened Wire
  import opened Chunks
  import opened Receiving
  import opened Sending
  import opened Control
  import opened Packing
  import opened Engine
  import opened Endpoint
  import opened Preservation
  import opened Confluence
  import opened Traffic

  predicate Plain(p: Packet) { p.sn < TWO_31 && p.una < TWO_31 }

  ghost predicate AllPlain(ps: seq<Packet>) { forall i | 0 <= i < |ps| :: Plain(ps[i]) }

  // ---- the parts an arrival does not touch --------------------------------------------

  /** Each step by parts: what the header does, and then the command. */
  lemma OneByParts(i: Inflow, p: Packet)
    ensures var t := InputOne(i, p).st; var h := TakeHeader(i.st, p);
            && t.snd == (if p.cmd == CMD_ACK then Shrink(ParseAck(h.snd, p.sn)) else h.snd)
            && t.rcv == (if p.cmd == CMD_PUSH then TakePush(h, p).rcv else i.st.rcv)
            && t.acks == (if p.cmd == CMD_PUSH then TakePush(h, p).acks else i.st.acks)
            && t.rtt == (if p.cmd == CMD_ACK then TakeAck(h, p).rtt else i.st.rtt)
            && t.probe == (if p.cmd == CMD_WASK then i.st.probe.(tell := true) else i.st.probe)
            && t.rmtWnd == p.wnd && t.cong == i.st.cong && t.cfg == i.st.cfg && t.clock == i.st.clock
            && h == i.st.(rmtWnd := p.wnd, snd := h.snd)
  {
    hide TakeHeader, TakeAck, TakePush, ParseAck, Shrink;
    HeaderParts(i.st, p);
    var h := TakeHeader(i.st, p);
    AckParts(h, p);
    AckUna(h, p);
    PushLeavesWindow(h, p);
    PushLeavesSender(h, p);
    PushLeavesRest(h, p);
  }

  lemma PushLeavesRest(s: State, p: Packet)
    ensures var t := TakePush(s, p); t.rtt == s.rtt && t.cfg == s.cfg && t.clock == s.clock
  {
    hide ParseData, Timediff, Add32;
  }

  // ---- round-trip samples ---------------------------------------------------------------

  /** The ages of the acknowledgements' time stamps, those from the future left out. */
  function Ages(now: u32, ps: seq<Packet>): seq<u32> {
    if ps == [] then []
    else
      var p := ps[|ps| - 1];
      var age := Timediff(now, p.ts);
      Ages(now, ps[..|ps| - 1]) + if p.cmd == CMD_ACK && age >= 0 then [age] else []
  }

  lemma AckSample(s: State, p: Packet)
    ensures var age := Timediff(s.clock.current, p.ts);
            TakeAck(s, p).rtt == if age >= 0 then UpdateAck(s.rtt, age, s.cfg.interval, s.cfg.minRto) else s.rtt
  {
    hide UpdateAck, ParseAck, Shrink, Timediff;
  }

  lemma SampleSnoc(r: Rtt, samples: seq<u32>, x: u32, interval: u32, minRto: u32)
    ensures Sample(r, samples + [x], interval, minRto) ==
            UpdateAck(Sample(r, samples, interval, minRto), x, interval, minRto)
    ensures Sample(r, samples + [], interval, minRto) == Sample(r, samples, interval, minRto)
  {
    hide UpdateAck;
    assert (samples + [x])[..|samples|] == samples;
    assert samples + [] == samples;
  }

  /** The estimator sees exactly the ages of the acknowledgements, in order. */
  lemma {:induction false} ArrivalSamples(i: Inflow, ps: seq<Packet>)
    ensures InputAll(i, ps).st.rtt == Sample(i.st.rtt, Ages(i.st.clock.current, ps), i.st.cfg.interval, i.st.cfg.minRto)
  {
    hide InputOne, UpdateAck, TakeAck, TakeHeader, TakePush, Timediff;
    if ps != [] {
      var n := |ps| - 1;
      var front := InputAll(i, ps[..n]);
      ArrivalSamples(i, ps[..n]);
      InputAllConfig(i, ps[..n]);
      OneByParts(front, ps[n]);
      AckSample(TakeHeader(front.st, ps[n]), ps[n]);
      var age := Timediff(i.st.clock.current, ps[n].ts);
      SampleSnoc(i.st.rtt, Ages(i.st.clock.current, ps[..n]), if age >= 0 then age else 0, i.st.cfg.interval,
        i.st.cfg.minRto);
    }
  }

  // ---- what is acknowledged is dropped, and nothing else ------------------------------------

  /** A segment that acknowledges number `n`, cumulatively or by name. */
  predicate Acknowledges(p: Packet, n: u32) { n < p.una || (p.cmd == CMD_ACK && p.sn == n) }

  ghost predicate Acknowledged(ps: seq<Packet>, n: u32) { exists j | 0 <= j < |ps| :: Acknowledges(ps[j], n) }

  ghost predicate Within(a: seq<Segment>, b: seq<Segment>) { forall g | g in a :: g in b }

  /** The cumulative part: exactly the numbers before `una` go. */
  lemma UnaExactly(s: Sender, una: u32, wnd: u16, n: u32)
    requires SndInv(s, wnd) && una < TWO_31 && n < TWO_31 && s.nxt < TWO_31
    ensures var b := ParseUna(s.buf, una); (Keeps(b, n) <==> Keeps(s.buf, n) && una <= n) && Within(b, s.buf)
  {
    hide Timediff, ParseUna;
    var k := ParseUnaFacts(s.buf, una);
    KeepsSlice(s.buf, k, n);
    forall i | 0 <= i < |s.buf| ensures Timediff(una, s.buf[i].sn) == una - s.buf[i].sn {
      TimediffExact(una, s.buf[i].sn);
    }
    if Keeps(s.buf[k..], n) {
      var i :| 0 <= i < |s.buf[k..]| && s.buf[k..][i].sn == n;
      assert s.buf[k + i].sn == n && s.buf[k].sn <= s.buf[k + i].sn;
    }
  }

  /** The selective part: exactly the named number goes. */
  lemma AckExactly(s: Sender, sn: u32, wnd: u16, n: u32)
    requires SndInv(s, wnd) && sn < TWO_31 && s.nxt < TWO_31
    ensures var b := Shrink(ParseAck(s, sn)).buf; (Keeps(b, n) <==> Keeps(s.buf, n) && n != sn) && Within(b, s.buf)
  {
    hide ParseAck, Shrink, SndInv, Keeps;
    var k := AckKeeps(s, sn, wnd, n);
    var b := Shrink(ParseAck(s, sn)).buf;
    if Removed(b, s.buf, k) {
      RemovedWithin(b, s.buf, k);
    }
  }

  lemma RemovedWithin(m: seq<Segment>, buf: seq<Segment>, k: nat)
    requires Removed(m, buf, k)
    ensures Within(m, buf)
  {
    forall g | g in m ensures g in buf {
      var i :| 0 <= i < |m| && m[i] == g;
      assert buf[if i < k then i else i + 1] == g;
    }
  }

  lemma DropOne(i: Inflow, p: Packet, wnd: u16, n: u32)
    requires SndInv(i.st.snd, wnd) && i.st.snd.nxt < TWO_31 && Plain(p) && n < TWO_31
    ensures var t := InputOne(i, p).st;
            && SndInv(t.snd, wnd) && t.snd.nxt == i.st.snd.nxt && Within(t.snd.buf, i.st.snd.buf)
            && (Keeps(t.snd.buf, n) <==> Keeps(i.st.snd.buf, n) && !Acknowledges(p, n))
  {
    hide InputOne, TakeHeader, ParseUna, ParseAck, Shrink, SndInv, Keeps, TakeAck, TakePush;
    OneByParts(i, p);
    HeaderParts(i.st, p);
    HeaderUna(i.st, p);
    var h := TakeHeader(i.st, p);
    var k := UnaKeeps(i.st.snd, p.una, wnd, n);
    UnaExactly(i.st.snd, p.una, wnd, n);
    if p.cmd == CMD_ACK {
      var j := AckKeeps(h.snd, p.sn, wnd, n);
      AckExactly(h.snd, p.sn, wnd, n);
      AckNxt(h.snd, p.sn);
    }
  }

  lemma AckNxt(s: Sender, sn: u32)
    ensures Shrink(ParseAck(s, sn)).nxt == s.nxt
  {
  }

  lemma AcknowledgedSnoc(ps: seq<Packet>, n: u32)
    requires ps != []
    ensures Acknowledged(ps, n) <==> Acknowledged(ps[..|ps| - 1], n) || Acknowledges(ps[|ps| - 1], n)
  {
    hide Acknowledges;
    var m := |ps| - 1;
    if Acknowledged(ps[..m], n) {
      var j :| 0 <= j < m && Acknowledges(ps[..m][j], n);
      assert Acknowledges(ps[j], n);
    }
    if Acknowledged(ps, n) && !Acknowledges(ps[m], n) {
      var j :| 0 <= j < |ps| && Acknowledges(ps[j], n);
      assert Acknowledges(ps[..m][j], n);
    }
  }

  /** A datagram drops exactly the kept segments it acknowledges, and leaves the others as they are. */
  lemma {:induction false} ArrivalDrops(i: Inflow, ps: seq<Packet>, wnd: u16, n: u32)
    requires SndInv(i.st.snd, wnd) && i.st.snd.nxt < TWO_31 && AllPlain(ps) && n < TWO_31
    ensures var t := InputAll(i, ps).st;
            && SndInv(t.snd, wnd) && t.snd.nxt == i.st.snd.nxt && Within(t.snd.buf, i.st.snd.buf)
            && (Keeps(t.snd.buf, n) <==> Keeps(i.st.snd.buf, n) && !Acknowledged(ps, n))
  {
    hide InputOne, SndInv, Keeps, Acknowledges, Plain;
    if ps != [] {
      var m := |ps| - 1;
      ArrivalDrops(i, ps[..m], wnd, n);
      DropOne(InputAll(i, ps[..m]), ps[m], wnd, n);
      AcknowledgedSnoc(ps, n);
    }
  }

  // ---- data, and its acknowledgements ----------------------------------------------------

  function Pushes(ps: seq<Packet>): seq<Packet> {
    if ps == [] then []
    else Pushes(ps[..|ps| - 1]) + if ps[|ps| - 1].cmd == CMD_PUSH then [ps[|ps| - 1]] else []
  }

  lemma PushReceives(s: State, p: Packet)
    ensures TakePush(s, p).rcv == ParseData(s.rcv, p, s.cfg.rcvWnd)
  {
    hide Insert, Drain, Timediff, Add32;
  }

  lemma FeedSnoc(r: Receiver, ps: seq<Packet>, p: Packet, wnd: u16)
    ensures Feed(r, ps + [p], wnd) == ParseData(Feed(r, ps, wnd), p, wnd) && Feed(r, ps + [], wnd) == Feed(r, ps, wnd)
  {
    hide ParseData;
    assert (ps + [p])[..|ps|] == ps;
    assert ps + [] == ps;
  }

  /** The receiver is fed exactly the data segments, in order. */
  lemma {:induction false} ArrivalFeeds(i: Inflow, ps: seq<Packet>)
    ensures InputAll(i, ps).st.rcv == Feed(i.st.rcv, Pushes(ps), i.st.cfg.rcvWnd)
  {
    hide InputOne, TakeHeader, TakePush, ParseData;
    if ps != [] {
      var n := |ps| - 1;
      var front := InputAll(i, ps[..n]);
      ArrivalFeeds(i, ps[..n]);
      InputAllConfig(i, ps[..n]);
      OneByParts(front, ps[n]);
      PushReceives(TakeHeader(front.st, ps[n]), ps[n]);
      FeedSnoc(i.st.rcv, Pushes(ps[..n]), ps[n], i.st.cfg.rcvWnd);
    }
  }

  /** The acknowledgement of a data segment: its number, and its time stamp to be echoed. */
  function AckOf(p: Packet): Ack { Ack(p.sn, p.ts) }

  /** What is acknowledged when the receiver expects `nxt`: everything before the end of the window, also what it
      has already. */
  function AcksFor(r: Receiver, ps: seq<Packet>, wnd: u16): seq<Ack> {
    if ps == [] then []
    else
      var front, p := ps[..|ps| - 1], ps[|ps| - 1];
      AcksFor(r, front, wnd) + if p.sn < Feed(r, front, wnd).nxt + wnd then [AckOf(p)] else []
  }

  lemma PushAcks(s: State, p: Packet)
    requires p.sn < TWO_31 && s.rcv.nxt < SN_LIMIT
    ensures TakePush(s, p).acks == s.acks + if p.sn < s.rcv.nxt + s.cfg.rcvWnd then [AckOf(p)] else []
  {
    hide ParseData, Timediff, Add32;
    WindowEdges(p.sn, s.rcv.nxt, s.cfg.rcvWnd);
  }

  lemma AcksSnoc(r: Receiver, ps: seq<Packet>, p: Packet, wnd: u16)
    ensures var more := if p.sn < Feed(r, ps, wnd).nxt + wnd then [AckOf(p)] else [];
            AcksFor(r, ps + [p], wnd) == AcksFor(r, ps, wnd) + more
    ensures AcksFor(r, ps + [], wnd) == AcksFor(r, ps, wnd)
  {
    hide Feed;
    assert (ps + [p])[..|ps|] == ps;
    assert ps + [] == ps;
  }

  /** A datagram makes exactly these acknowledgements pending, behind those that are. */
  lemma {:induction false} ArrivalAcks(i: Inflow, ps: seq<Packet>)
    requires EndInv(i.st) && ReceiveRoom(i.st, |ps|) && AllPlain(ps)
    ensures InputAll(i, ps).st.acks == i.st.acks + AcksFor(i.st.rcv, Pushes(ps), i.st.cfg.rcvWnd)
  {
    hide InputOne, TakeHeader, TakePush, EndInv, Feed;
    if ps == [] {
      assert i.st.acks + [] == i.st.acks;
    } else {
      var n := |ps| - 1;
      var front := InputAll(i, ps[..n]);
      ArrivalAcks(i, ps[..n]);
      ArrivalFeeds(i, ps[..n]);
      InputAllConfig(i, ps[..n]);
      InputAllKeeps(i, ps[..n]);
      OneByParts(front, ps[n]);
      PushAcks(TakeHeader(front.st, ps[n]), ps[n]);
      AcksSnoc(i.st.rcv, Pushes(ps[..n]), ps[n], i.st.cfg.rcvWnd);
      Associative(i.st.acks, AcksFor(i.st.rcv, Pushes(ps[..n]), i.st.cfg.rcvWnd), [AckOf(ps[n])]);
    }
  }

  // ---- duplicate acknowledgements ----------------------------------------------------------

  /** `m` is the highest number acknowledged by name. */
  ghost predicate IsHighest(ps: seq<Packet>, m: u32) {
    && (exists j | 0 <= j < |ps| :: ps[j].cmd == CMD_ACK && ps[j].sn == m)
    && (forall j | 0 <= j < |ps| && ps[j].cmd == CMD_ACK :: ps[j].sn <= m)
  }

  ghost predicate NoAcks(ps: seq<Packet>) { forall j | 0 <= j < |ps| :: ps[j].cmd != CMD_ACK }

  lemma OneHighest(i: Inflow, p: Packet)
    requires p.sn < TWO_31 && i.maxAck < TWO_31
    ensures var r := InputOne(i, p);
            if p.cmd == CMD_ACK then r.flag && r.maxAck == (if i.flag && i.maxAck >= p.sn then i.maxAck else p.sn)
            else r.flag == i.flag && r.maxAck == i.maxAck
  {
    hide TakeHeader, TakeAck, TakePush;
    TimediffExact(p.sn, i.maxAck);
  }

  /** The loop finds the highest of the acknowledged numbers. */
  lemma {:induction false} ArrivalHighest(s: State, ps: seq<Packet>)
    requires AllPlain(ps)
    ensures var r := InputPackets(s, ps);
            r.maxAck < TWO_31 && if r.flag then IsHighest(ps, r.maxAck) else NoAcks(ps) && r.maxAck == 0
  {
    hide InputOne;
    if ps != [] {
      var n := |ps| - 1;
      var front := InputPackets(s, ps[..n]);
      ArrivalHighest(s, ps[..n]);
      OneHighest(front, ps[n]);
      HighestSnoc(ps, front.flag, front.maxAck);
    }
  }

  lemma HighestSnoc(ps: seq<Packet>, flag: bool, m: u32)
    requires ps != [] && if flag then IsHighest(ps[..|ps| - 1], m) else NoAcks(ps[..|ps| - 1])
    ensures var p := ps[|ps| - 1];
            if p.cmd == CMD_ACK then IsHighest(ps, if flag && m >= p.sn then m else p.sn)
            else if flag then IsHighest(ps, m)
            else NoAcks(ps)
  {
    var n := |ps| - 1;
    if flag {
      var j :| 0 <= j < n && ps[..n][j].cmd == CMD_ACK && ps[..n][j].sn == m;
      assert ps[j].cmd == CMD_ACK && ps[j].sn == m;
    }
    forall j | 0 <= j < |ps| ensures j < n ==> ps[j] == ps[..n][j] {
    }
  }

  // ---- window and probes -------------------------------------------------------------------

  /** The remote window is the last one announced, and the own one is to be told exactly when it was already or
      somebody has asked. */
  lemma {:induction false} ArrivalProbes(i: Inflow, ps: seq<Packet>)
    ensures var t := InputAll(i, ps).st;
            && t.rmtWnd == (if ps == [] then i.st.rmtWnd else ps[|ps| - 1].wnd) && t.cong == i.st.cong
            && t.probe == i.st.probe.(tell := t.probe.tell)
            && (t.probe.tell <==> i.st.probe.tell || exists j | 0 <= j < |ps| :: ps[j].cmd == CMD_WASK)
  {
    hide InputOne, TakeHeader, TakePush, TakeAck;
    if ps != [] {
      var n := |ps| - 1;
      ArrivalProbes(i, ps[..n]);
      OneByParts(InputAll(i, ps[..n]), ps[n]);
      if j :| 0 <= j < |ps| && ps[j].cmd == CMD_WASK {
        assert j < n ==> ps[..n][j].cmd == CMD_WASK;
      }
      if j :| 0 <= j < n && ps[..n][j].cmd == CMD_WASK {
        assert ps[j].cmd == CMD_WASK;
      }
    }
  }

  // ---- the whole of `input` ------------------------------------------------------------------

  /** The segments `input` takes from the bytes. */
  function Taken(s: State, b: seq<byte>): seq<Packet> { Parse(b, s.conv, s.inputConv).packets }

  /** What `input` answers, on any bytes: too short for a segment at all; or the length of the segments it has
      taken, when less than a header is left; or else why it has stopped where it did. */
  lemma InputAnswers(s: State, b: seq<byte>)
    requires s.cfg.mss > 0
    ensures var r, ps := Input(s, b), Taken(s, b); var n := |EncodeAll(ps)|;
            if |b| < OVERHEAD then r == InputResult(s, Err(InvalidSegmentSize(|b|)))
            else
              && n <= |b| && EncodeAll(ps) == b[..n]
              && if |b| - n < OVERHEAD then r.result == Ok(n)
                 else r.result.Err? && StopsAt(b[n..], Parsed([], r.st.conv, r.st.inputConv, Failed(r.result.error)))
  {
    hide Parse, InputPackets, Conclude, EncodeAll, StopsAt;
    if |b| >= OVERHEAD {
      ParseStops(b, s.conv, s.inputConv);
      var r := Parse(b, s.conv, s.inputConv);
      var n := |EncodeAll(r.packets)|;
      StopsLater(b[n..], r, []);
      StopsCases(b[n..], r);
      InputPacketsConfig(s, r.packets);
      ConcludeLeaves(InputPackets(s, r.packets), s.snd.una);
      ConcludeConv(s, r);
    }
  }

  lemma StopsCases(rest: seq<byte>, r: Parsed)
    requires StopsAt(rest, r)
    ensures if |rest| < OVERHEAD then r.end == Consumed(|rest|) else r.end.Failed?
  {
    hide Get32;
  }

  lemma InputPacketsConfig(s: State, ps: Datagram)
    ensures InputPackets(s, ps).st.cfg == s.cfg
  {
    InputAllConfig(Inflow(s, false, 0), ps);
  }

  /** What follows the loop touches the counts of duplicate acknowledgements and the congestion window only. */
  lemma ConcludeLeaves(i: Inflow, oldUna: u32)
    requires i.st.cfg.mss > 0
    ensures var t := Conclude(i, oldUna);
            t == i.st.(snd := t.snd, cong := t.cong) && t.snd == i.st.snd.(buf := t.snd.buf)
  {
    hide BumpFastack, Grow, InFlight;
  }

  lemma ConcludeConv(s: State, r: Parsed)
    requires InputPackets(s, r.packets).st.cfg == s.cfg && s.cfg.mss > 0
    ensures var i := InputPackets(s, r.packets);
            var t := Conclude(i.(st := i.st.(conv := r.conv, inputConv := r.inputConv)), s.snd.una);
            t.conv == r.conv && t.inputConv == r.inputConv
  {
    hide InputPackets, ParseFastack, Grow;
  }

  /** An endpoint after `input` is the one after its segments, but for the conversation, and on success for the
      counts of duplicate acknowledgements and the congestion window: when acknowledgements came, with the highest
      number; and when the first unacknowledged number has moved on, one growth step. */
  lemma InputState(s: State, b: seq<byte>)
    requires s.cfg.mss > 0 && |b| >= OVERHEAD
    ensures var r := Input(s, b); var i := InputPackets(s, Taken(s, b));
            && i.st.cfg == s.cfg
            && r.st == i.st.(conv := r.st.conv, inputConv := r.st.inputConv, snd := r.st.snd, cong := r.st.cong)
            && (r.result.Err? ==> r.st.snd == i.st.snd && r.st.cong == i.st.cong)
            && (r.result.Ok? ==>
                  && r.st.snd == (if i.flag then ParseFastack(i.st.snd, i.maxAck) else i.st.snd)
                  && r.st.snd.una == i.st.snd.una
                  && (r.st.snd.una > s.snd.una ==> r.st.cong == Grow(i.st.cong, i.st.rmtWnd, s.cfg.mss))
                  && (r.st.snd.una <= s.snd.una ==> r.st.cong == i.st.cong))
  {
    hide Parse, InputPackets, BumpFastack, Grow, InFlight;
    InputPacketsConfig(s, Taken(s, b));
  }

  /** The congestion window changes only when the first unacknowledged number has moved on, and then by a growth
      step towards the window announced last. */
  lemma InputGrows(s: State, b: seq<byte>)
    requires EndInv(s) && ReceiveRoom(s, |b|) && s.cfg.mss < TWO_16
    ensures s.cfg.mss > 0
    ensures var r := Input(s, b); var c, g, mss := s.cong, r.st.cong, s.cfg.mss;
            var incr := c.incr + Portion(mss * mss, Max(c.incr, 1)) + mss / 16;
            if r.result.Ok? && r.st.snd.una > s.snd.una && c.cwnd < r.st.rmtWnd then
              && g.ssthresh == c.ssthresh
              && if c.cwnd < c.ssthresh then g.cwnd == c.cwnd + 1 && g.incr == c.incr + mss
                 else g.cwnd == (if (c.cwnd + 1) * mss <= incr then c.cwnd + 1 else c.cwnd) && g.incr == incr
            else g == c
  {
    hide InputPackets, Grow, Coherent, Portion, ParseFastack, Parse, SndInv, RcvInv, QueueShape, Light, Size, Input,
         Taken;
    if |b| < OVERHEAD {
      TooShort(s, b);
    } else {
      InputState(s, b);
      ArrivalProbes(Inflow(s, false, 0), Taken(s, b));
      PacketsAre(s, Taken(s, b));
      var r := Input(s, b);
      NoGrowth(s.cong, r.st.rmtWnd, s.cfg.mss);
      if s.cong.cwnd < r.st.rmtWnd {
        GrowExactly(s.cong, r.st.rmtWnd, s.cfg.mss);
      }
    }
  }

  lemma TooShort(s: State, b: seq<byte>)
    requires s.cfg.mss > 0 && |b| < OVERHEAD
    ensures Input(s, b) == InputResult(s, Err(InvalidSegmentSize(|b|)))
  {
  }

  lemma PacketsAre(s: State, ps: seq<Packet>)
    ensures InputPackets(s, ps) == InputAll(Inflow(s, false, 0), ps)
  {
  }

  lemma NoGrowth(c: Congestion, rmtWnd: u16, mss: u32)
    requires mss > 0
    ensures c.cwnd >= rmtWnd ==> Grow(c, rmtWnd, mss) == c
  {
    hide Avoid;
  }

  /** And the counts of duplicate acknowledgements: on success, with `m` the highest number acknowledged by name
      and in flight, exactly the kept segments before it count one more. */
  lemma InputCounts(s: State, b: seq<byte>, m: u32)
    requires EndInv(s) && ReceiveRoom(s, |b|) && s.snd.nxt < TWO_31 && s.cfg.mss > 0 && |b| >= OVERHEAD
    requires AllPlain(Taken(s, b))
    ensures var r, before := Input(s, b), InputPackets(s, Taken(s, b)).st.snd;
            && (r.result.Ok? && IsHighest(Taken(s, b), m) && before.una <= m < before.nxt ==>
                  PassedOver(before.buf, r.st.snd.buf, m))
            && (r.result.Err? || NoAcks(Taken(s, b)) ==> r.st.snd.buf == before.buf)
            && (IsHighest(Taken(s, b), m) && !(before.una <= m < before.nxt) ==> r.st.snd.buf == before.buf)
  {
    hide InputPackets, Grow, ParseFastack, Parse, Input, Taken, PassedOver, EndInv, SndInv;
    InputState(s, b);
    var ps := Taken(s, b);
    ArrivalHighest(s, ps);
    PacketsAre(s, ps);
    EndInvParts(s);
    ArrivalDrops(Inflow(s, false, 0), ps, s.cfg.sndWnd, 0);
    var i := InputPackets(s, ps);
    FastackExactly(i.st.snd, i.maxAck, s.cfg.sndWnd);
    HighestIsUnique(ps, m, i.flag, i.maxAck);
  }

  lemma HighestIsUnique(ps: seq<Packet>, m: u32, flag: bool, n: u32)
    requires if flag then IsHighest(ps, n) else NoAcks(ps)
    ensures IsHighest(ps, m) ==> flag && m == n
    ensures NoAcks(ps) ==> !flag
  {
  }
}
