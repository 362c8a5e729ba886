/** What a flush puts on the wire, and what it does to the endpoint. */
module Flushing {
  import opened Arith
  import opened Wire
  import opened Chunks
  import opened Receiving
  import opened Sending
  import opened Control
  import opened Packing
  import opened Engine
  import opened Endpoint

  /** Everything a flush is about to send, in order: all pending acknowledgements, the probe commands,
      and each due segment once. */
  function FlushPlan(s: State): seq<Packet> {
    AckPackets(s, s.acks) + ProbePackets(s, s.acks, AfterAcks(s).probe) + DuePackets(RoundOf(s), Admission(s).buf)
  }

  lemma AfterProbesIsSimilar(s: State)
    ensures RoundOf(AfterProbes(s)) == RoundOf(s) && Admission(AfterProbes(s)) == Admission(s)
    ensures UsedWindow(AfterProbes(s)) == UsedWindow(s)
  {
    hide Admit;
  }

  /** The output of a flush is that of packing the plan and sending the rest. */
  lemma FlushOutput(s: State, limit: nat)
    requires s.clock.updated
    ensures var r, o := Flush(s, limit), Finish(PutAll(Start(s, limit), FlushPlan(s), s.cfg.mtu));
            r.ok == o.ok && r.sent == o.sent && r.st.buf == o.buf
  {
    hide PutAll, TxAll, Admit, AckPackets, ProbePackets, Settle, UsedWindow, RoundOf, Finish;
    var mtu := s.cfg.mtu;
    var acks := AckPackets(s, s.acks);
    var probes := ProbePackets(s, s.acks, AfterAcks(s).probe);
    var due := DuePackets(RoundOf(s), Admission(s).buf);
    var o0 := Start(s, limit);
    var o1 := PutAll(o0, acks, mtu);
    var o2 := PutAll(o1, probes, mtu);
    var o3 := PutAll(o2, due, mtu);
    PutAllAppend(o0, acks, probes, mtu);
    PutAllAppend(o0, acks + probes, due, mtu);
    PutAllSticks(o1, probes, mtu);
    PutAllSticks(o2, due, mtu);
    FinishSticks(o3);
    AfterProbesIsSimilar(s);
    var t := AfterProbes(s);
    TransmissionFacts(t, o2);
  }

  lemma TransmissionFacts(t: State, o: Out)
    ensures Transmission(t, o).out == PutAll(o, DuePackets(RoundOf(t), Admission(t).buf), t.cfg.mtu)
    ensures SameSegments(Admission(t).buf, Transmission(t, o).done)
    ensures SomePassed(RoundOf(t), Admission(t).buf, Transmission(t, o).done)
    ensures Transmission(t, o).out.ok ==> AllPassed(RoundOf(t), Admission(t).buf, Transmission(t, o).done)
  {
    hide PutAll, TxAll, Admission, AllPassed, SomePassed, SameSegments, DuePackets;
    TxFacts(RoundOf(t), Tx([], o, false, 0, t.xmit, t.dead), Admission(t).buf);
  }

  lemma {:induction false} PutAllSticks(o: Out, ps: seq<Packet>, mtu: nat)
    ensures !o.ok ==> PutAll(o, ps, mtu) == o
  {
    if ps != [] {
      PutAllSticks(o, ps[..|ps| - 1], mtu);
    }
  }

  lemma FinishSticks(o: Out)
    ensures !o.ok ==> Finish(o) == o
  {
  }

  /** Conservation: what a flush has sent, together with what its buffer still holds, is what the buffer
      held before, followed by a prefix of the plan; on success the whole plan, with nothing left over.
      It sends at most `limit` datagrams, fails only when it has sent that many, and succeeds when the socket takes
      enough of them. */
  lemma FlushSends(s: State, limit: nat) returns (k: nat)
    requires s.clock.updated
    ensures var r, plan := Flush(s, limit), FlushPlan(s);
            && k <= |plan| && Flatten(r.sent) + r.st.buf == s.buf + plan[..k]
            && (r.ok ==> k == |plan| && r.st.buf == [])
            && |r.sent| <= limit && (limit > |plan| ==> r.ok) && (!r.ok ==> |r.sent| == limit)
  {
    hide PutAll, Flush, FlushPlan, Finish;
    FlushOutput(s, limit);
    var o := Start(s, limit);
    k := PutAllFacts(o, FlushPlan(s), s.cfg.mtu);
    FinishFacts(PutAll(o, FlushPlan(s), s.cfg.mtu));
  }

  /** The last thing a successful flush sends is the last packet of its plan. */
  lemma FlushEndsWithPlan(s: State, limit: nat)
    requires s.clock.updated && FlushPlan(s) != [] && Flush(s, limit).ok
    ensures var sent := Flush(s, limit).sent;
            sent != [] && sent[|sent| - 1] != [] &&
            sent[|sent| - 1][|sent[|sent| - 1]| - 1] == FlushPlan(s)[|FlushPlan(s)| - 1]
  {
    hide PutAll, Flush, FlushPlan, Finish;
    FlushOutput(s, limit);
    var o := Start(s, limit);
    var plan := FlushPlan(s);
    var o1 := PutAll(o, plan, s.cfg.mtu);
    var k := PutAllFacts(o, plan, s.cfg.mtu);
    FinishFacts(o1);
  }

  /** Datagram packing: every datagram of a flush is non-empty, is a whole number of segments and fits the
      mtu, and so does what is left in the buffer, also when a send fails. */
  lemma FlushPacks(s: State, limit: nat)
    requires EndInv(s) && SendRoom(s)
    ensures var r := Flush(s, limit);
            && Size(r.st.buf) <= s.cfg.mtu
            && forall i | 0 <= i < |r.sent| :: r.sent[i] != [] && Size(r.sent[i]) <= s.cfg.mtu
  {
    if s.clock.updated {
      hide PutAll, Flush, FlushPlan, Finish, EndInv;
      FlushOutput(s, limit);
      var o := Start(s, limit);
      PlanIsSmall(s);
      StartIsPacked(s, limit);
      PutAllPacks(o, FlushPlan(s), s.cfg.mtu);
      FinishPacks(PutAll(o, FlushPlan(s), s.cfg.mtu), s.cfg.mtu);
    }
  }

  /** And in bytes: with or without a key, what reaches the socket is at least a header and at most the mtu. */
  lemma FlushFitsMtu(s: State, limit: nat, key: Option<Key>, i: nat)
    requires EndInv(s) && SendRoom(s) && i < |Flush(s, limit).sent|
    ensures OVERHEAD <= |Wired(key, Flush(s, limit).sent)[i]| <= s.cfg.mtu
  {
    hide Flush, EndInv, OnWire;
    FlushPacks(s, limit);
    LengthOnWire(key, Flush(s, limit).sent[i]);
  }

  lemma LengthOnWire(key: Option<Key>, d: Datagram)
    requires d != []
    ensures |OnWire(key, d)| == Size(d) >= OVERHEAD
  {
    SizeIsLength(d);
  }

  lemma StartIsPacked(s: State, limit: nat)
    requires EndInv(s)
    ensures Packed(Start(s, limit), s.cfg.mtu)
  {
  }

  /** The three parts of a plan: every position falls into one of them. */
  lemma PlanParts(s: State, j: nat)
    requires j < |FlushPlan(s)|
    ensures var acks, probes, due := AckPackets(s, s.acks), ProbePackets(s, s.acks, AfterAcks(s).probe),
            DuePackets(RoundOf(s), Admission(s).buf);
            var p := FlushPlan(s)[j];
            if j < |acks| then p == acks[j]
            else if j < |acks| + |probes| then p == probes[j - |acks|]
            else j - |acks| - |probes| < |due| && p == due[j - |acks| - |probes|]
  {
    hide AckPackets, ProbePackets, DuePackets, Admission, RoundOf;
  }

  lemma AdmissionIsLight(s: State)
    requires EndInv(s) && SendRoom(s)
    ensures Light(Admission(s).buf, s.cfg.mss)
  {
    hide Admit, RcvInv, Coherent, Size, WndUnused;
    var k, added := AdmitKeeps(s.snd, UsedWindow(s), StampOf(s), s.cfg.sndWnd);
  }

  lemma PlanIsSmall(s: State)
    requires EndInv(s) && SendRoom(s)
    ensures Small(FlushPlan(s), s.cfg.mtu)
  {
    hide FlushPlan, EndInv, SendRoom, Light, Admission;
    AdmissionIsLight(s);
    RoomForHeader(s);
    forall j | 0 <= j < |FlushPlan(s)| ensures EncodedLen(FlushPlan(s)[j]) <= s.cfg.mtu {
      PlanPacketIsSmall(s, j);
    }
  }

  lemma RoomForHeader(s: State)
    requires EndInv(s)
    ensures s.cfg.mtu == s.cfg.mss + OVERHEAD
  {
  }

  lemma PlanPacketIsSmall(s: State, j: nat)
    requires Light(Admission(s).buf, s.cfg.mss) && s.cfg.mtu == s.cfg.mss + OVERHEAD && j < |FlushPlan(s)|
    ensures EncodedLen(FlushPlan(s)[j]) <= s.cfg.mtu
  {
    hide FlushPlan, Admission, RoundOf, DuePackets, Restamped;
    PlanParts(s, j);
    var acks, probes := AckPackets(s, s.acks), ProbePackets(s, s.acks, AfterAcks(s).probe);
    if j >= |acks| + |probes| {
      var e, segs := RoundOf(s), Admission(s).buf;
      var i := DueOrigin(e, segs, j - |acks| - |probes|);
      RestampedIsSame(e, segs[i]);
    }
  }

  /** What a flush leaves of the sender and of the rest of the endpoint. */
  ghost predicate Flushed(s: State, r: Outcome) {
    && r.st.cfg == s.cfg && r.st.conv == s.conv && r.st.inputConv == s.inputConv && r.st.rcv == s.rcv
    && r.st.rmtWnd == s.rmtWnd && r.st.rtt == s.rtt && r.st.clock == s.clock
    && (r.st.acks == s.acks || r.st.acks == [])
    && (r.st.probe.wait == s.probe.wait || r.st.probe.wait == ProbeTimer(s.probe, s.rmtWnd, s.clock.current).wait)
    && (r.st.snd == s.snd || ReachedData(s, r))
  }

  ghost predicate CompletelyFlushed(s: State, r: Outcome) {
    && r.st.snd == Admission(s).(buf := r.st.snd.buf) && AllPassed(RoundOf(s), Admission(s).buf, r.st.snd.buf)
    && r.st.acks == [] && r.st.probe == AfterProbes(s).probe
  }

  /** The probe delay stays within its limit, and runs while the remote window is closed. */
  lemma ProbeTimerBounded(p: Probe, rmtWnd: u16, current: u32)
    requires p.wait <= PROBE_LIMIT
    ensures var q := ProbeTimer(p, rmtWnd, current);
            q.wait <= PROBE_LIMIT && (rmtWnd == 0 ==> q.wait > 0) && q.tell == p.tell
  {
    hide Timediff;
  }

  /** The data part of a flush. */
  lemma TransmitState(s: State, o: Out)
    ensures var r := Transmit(s, o);
            && r.st == s.(snd := r.st.snd, xmit := r.st.xmit, dead := r.st.dead, buf := r.st.buf, cong := r.st.cong)
            && ReachedData(s, r)
            && (r.ok ==> AllPassed(RoundOf(s), Admission(s).buf, r.st.snd.buf))
  {
    hide Transmission, Admission, Settle, UsedWindow, RoundOf, AllPassed, SomePassed, SameSegments, Resent;
    TransmissionFacts(s, o);
    FinishSticks(Transmission(s, o).out);
  }

  lemma ReachedDataSimilar(s: State, r: Outcome)
    ensures ReachedData(AfterProbes(s), r) <==> ReachedData(s, r)
  {
    hide Admission, SameSegments, SomePassed, RoundOf;
    AfterProbesIsSimilar(s);
  }

  /** A flush, case by case. */
  lemma FlushCases(s: State, limit: nat)
    ensures var o1 := PutAll(Start(s, limit), AckPackets(s, s.acks), s.cfg.mtu);
            var o2 := PutAll(o1, ProbePackets(s, s.acks, AfterAcks(s).probe), s.cfg.mtu);
            Flush(s, limit) ==
            if !s.clock.updated then Outcome(s, [], true)
            else if !o1.ok then Outcome(s.(buf := o1.buf), o1.sent, false)
            else if !o2.ok then Outcome(AfterAcks(s).(buf := o2.buf), o2.sent, false)
            else Transmit(AfterProbes(s), o2)
  {
    hide PutAll, AckPackets, ProbePackets, Transmit, AfterAcks, AfterProbes;
  }

  lemma FlushedEarly(s: State, b: Datagram, sent: seq<Datagram>, ok: bool)
    ensures Flushed(s, Outcome(s, sent, ok)) && Flushed(s, Outcome(s.(buf := b), sent, ok))
    ensures Flushed(s, Outcome(AfterAcks(s).(buf := b), sent, ok))
  {
    hide ReachedData, ProbeTimer;
  }

  lemma FlushedLate(s: State, o: Out)
    ensures var r := Transmit(AfterProbes(s), o); Flushed(s, r) && (r.ok ==> CompletelyFlushed(s, r))
  {
    hide Transmit, Admission, RoundOf, AllPassed, SomePassed, SameSegments, ProbeTimer;
    AfterProbesIsSimilar(s);
    TransmitState(AfterProbes(s), o);
    ReachedDataSimilar(s, Transmit(AfterProbes(s), o));
  }

  lemma FlushState(s: State, limit: nat)
    ensures Flushed(s, Flush(s, limit))
    ensures Flush(s, limit).ok && s.clock.updated ==> CompletelyFlushed(s, Flush(s, limit))
  {
    hide Flush, Flushed, CompletelyFlushed, PutAll, Transmit, AckPackets, ProbePackets, AfterAcks, AfterProbes;
    FlushCases(s, limit);
    var o1 := PutAll(Start(s, limit), AckPackets(s, s.acks), s.cfg.mtu);
    var o2 := PutAll(o1, ProbePackets(s, s.acks, AfterAcks(s).probe), s.cfg.mtu);
    FlushedEarly(s, o1.buf, [], true);
    FlushedEarly(s, o1.buf, o1.sent, false);
    FlushedEarly(s, o2.buf, o2.sent, false);
    FlushedLate(s, o2);
  }

  /** Whether a flush got as far as its data part. */
  ghost predicate ReachedData(s: State, r: Outcome) {
    && r.st.snd == Admission(s).(buf := r.st.snd.buf)
    && SameSegments(Admission(s).buf, r.st.snd.buf) && SomePassed(RoundOf(s), Admission(s).buf, r.st.snd.buf)
  }

  /** A flush that fails before its data part has sent no data and numbered nothing. */
  lemma FlushWithoutData(s: State, limit: nat)
    requires s.clock.updated && !ReachedData(s, Flush(s, limit))
    ensures var r := Flush(s, limit);
            r.st.snd == s.snd && |Flatten(r.sent) + r.st.buf| <= |s.buf| + |AckPackets(s, s.acks)| +
              |ProbePackets(s, s.acks, AfterAcks(s).probe)|
  {
    hide PutAll, TxAll, Admission, AckPackets, ProbePackets, Settle, UsedWindow, RoundOf, SameSegments, SomePassed,
         ProbeTimer,
         Flatten;
    var o0 := Start(s, limit);
    var acks, probes := AckPackets(s, s.acks), ProbePackets(s, s.acks, AfterAcks(s).probe);
    var o1 := PutAll(o0, acks, s.cfg.mtu);
    var o2 := PutAll(o1, probes, s.cfg.mtu);
    AfterProbesIsSimilar(s);
    TransmissionFacts(AfterProbes(s), o2);
    assert Contents(o0) == s.buf by { NothingSent(s, limit); }
    var k1 := PutAllFacts(o0, acks, s.cfg.mtu);
    var k2 := PutAllFacts(o1, probes, s.cfg.mtu);
  }

  lemma NothingSent(s: State, limit: nat)
    ensures Contents(Start(s, limit)) == s.buf
  {
    assert [] + s.buf == s.buf;
  }

  lemma SameSegmentsKeep(s: Sender, t: Sender, wnd: u16, mss: nat)
    requires SndInv(s, wnd) && Light(s.buf, mss) && t == s.(buf := t.buf) && SameSegments(s.buf, t.buf)
    ensures SndInv(t, wnd) && Light(t.buf, mss)
  {
  }

  lemma FlushCongestion(s: State, limit: nat)
    requires s.cfg.mss < TWO_16 && s.cfg.mss > 0 && Coherent(s.cong, s.cfg.mss)
    ensures Coherent(Flush(s, limit).st.cong, s.cfg.mss)
    ensures s.clock.updated && Flush(s, limit).ok ==> Flush(s, limit).st.cong.cwnd >= 1
  {
    if s.clock.updated {
      hide PutAll, TxAll, Admit, AckPackets, ProbePackets, UsedWindow, RoundOf, ProbeTimer, Coherent, Settle;
      var t := AfterProbes(s);
      var o1 := PutAll(Start(s, limit), AckPackets(s, s.acks), s.cfg.mtu);
      var o2 := PutAll(o1, ProbePackets(s, s.acks, AfterAcks(s).probe), s.cfg.mtu);
      var tx, snd := Transmission(t, o2), Admission(t);
      SettleKeeps(s.cong, tx.change > 0, tx.lost, Wrap32(snd.nxt - snd.una), Resent(s.cfg), UsedWindow(t), s.cfg.mss);
    }
  }

  /** After a completed flush the congestion window is open. */
  lemma FlushOpensWindow(s: State, limit: nat)
    requires s.clock.updated && Flush(s, limit).ok
    ensures Flush(s, limit).st.cong.cwnd >= 1
  {
    hide PutAll, TxAll, Admit, AckPackets, ProbePackets, UsedWindow, RoundOf, ProbeTimer;
  }

  lemma SuffixShape(q: seq<Chunk>, k: nat, mss: nat, stream: bool)
    requires QueueShape(q, mss, stream) && k <= |q|
    ensures QueueShape(q[k..], mss, stream)
  {
  }

  /** A flush keeps the invariant, whether or not its sends succeed. */
  lemma FlushKeeps(s: State, limit: nat)
    requires EndInv(s) && SendRoom(s)
    ensures EndInv(Flush(s, limit).st)
    ensures var t := Flush(s, limit).st; t.snd.nxt + |t.snd.queue| == s.snd.nxt + |s.snd.queue|
  {
    hide Flush, Admit, RcvInv, Coherent, Size, UsedWindow, StampOf, QueueShape, SndInv, Light, SameSegments,
         SomePassed, ProbeTimer;
    FlushState(s, limit);
    ProbeTimerBounded(s.probe, s.rmtWnd, s.clock.current);
    FlushPacks(s, limit);
    if s.cfg.mss < TWO_16 {
      FlushCongestion(s, limit);
    }
    WindowFits(s);
    var k, added := AdmitKeeps(s.snd, UsedWindow(s), StampOf(s), s.cfg.sndWnd);
    AdmissionIsLight(s);
    SuffixShape(s.snd.queue, k, s.cfg.mss, s.cfg.stream);
    var t := Flush(s, limit).st;
    if t.snd != s.snd {
      SameSegmentsKeep(Admission(s), t.snd, s.cfg.sndWnd, s.cfg.mss);
    }
  }

  lemma WindowFits(s: State)
    ensures UsedWindow(s) <= s.cfg.sndWnd && UsedWindow(s) <= s.rmtWnd
    ensures (!s.cfg.nocwnd ==> UsedWindow(s) <= s.cong.cwnd)
  {
  }

  lemma FlushAckKeeps(s: State, limit: nat)
    requires EndInv(s) && s.clock.updated
    ensures EndInv(FlushAck(s, limit).st)
  {
    hide PutAll, RcvInv, SndInv, QueueShape, Coherent, Light;
    var o := Start(s, limit);
    StartIsPacked(s, limit);
    PutAllPacks(o, AckPackets(s, s.acks), s.cfg.mtu);
  }

  /** Pending acknowledgements alone: the same conservation, nothing but the acknowledgements is sent. */
  lemma FlushAckSends(s: State, limit: nat) returns (k: nat)
    requires s.clock.updated
    ensures var r, acks := FlushAck(s, limit), AckPackets(s, s.acks);
            && k <= |acks| && Flatten(r.sent) + r.st.buf == s.buf + acks[..k]
            && (r.ok ==> k == |acks| && r.st.acks == []) && (!r.ok ==> r.st.acks == s.acks)
            && r.st == s.(acks := r.st.acks, buf := r.st.buf)
  {
    hide PutAll;
    k := PutAllFacts(Start(s, limit), AckPackets(s, s.acks), s.cfg.mtu);
  }

  lemma FlushAsyncKeeps(s: State, limit: nat)
    requires EndInv(s) && SendRoom(s)
    ensures EndInv(FlushAsync(s, limit).st)
  {
    hide Flush, RcvInv, SndInv, QueueShape, Coherent, Light;
    FlushKeeps(s.(clock := Touch(s.clock, Add32(s.clock.current, 10))), limit);
  }

  lemma UpdateKeeps(s: State, now: u32, limit: nat)
    requires EndInv(s) && SendRoom(s)
    ensures EndInv(Update(s, now, limit).st)
  {
    hide Flush, RcvInv, SndInv, QueueShape, Coherent, Light, Slap, Schedule;
    FlushKeeps(s.(clock := Schedule(Touch(s.clock, now), s.cfg.interval)), limit);
  }

  lemma SendKeeps(s: State, data: seq<byte>)
    requires EndInv(s)
    ensures EndInv(SendData(s, data).st)
    ensures var t := SendData(s, data).st; t.snd.nxt + |t.snd.queue| < s.snd.nxt + |s.snd.queue| + FRAGMENT_LIMIT
  {
    hide Send, RcvInv, Coherent, Light, Size;
    SendShape(s.snd.queue, data, s.cfg.mss, s.cfg.stream);
  }

  lemma ReceiveKeeps(s: State, size: nat)
    requires EndInv(s) && ReceiveRoom(s, 0)
    ensures EndInv(Receive(s, size).st) && (Receive(s, size).result.Err? ==> Receive(s, size).st == s)
    ensures s.rcv.nxt <= Receive(s, size).st.rcv.nxt
  {
    hide Recv, SndInv, QueueShape, Coherent, Light, Size, RcvInv;
    if Recv(s.rcv, s.cfg.rcvWnd, size).Ok? {
      var k := RecvFacts(s.rcv, s.cfg.rcvWnd, size);
    }
  }
}
