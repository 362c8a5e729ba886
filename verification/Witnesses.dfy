/** Lives of one endpoint that show where a property the code could be expected to have fails. */
module Witnesses {
  import opened Arith
  import opened Wire
  import opened Chunks
  import opened Receiving
  import opened Sending
  import opened Control
  import opened Packing
  import opened Engine
  import opened Endpoint
  import opened Flushing
  import opened Lifetime
  import T = Timing
  import Pr = Preservation

  // ---- a flush with nothing but data ------------------------------------------------

  /** There are no acknowledgements or probes to send, and the output buffer is empty. */
  predicate Quiet(s: State) {
    s.clock.updated && s.acks == [] && !s.probe.ask && !s.probe.tell && s.rmtWnd > 0 && s.buf == []
  }

  lemma QuietPlan(s: State)
    requires Quiet(s)
    ensures FlushPlan(s) == DuePackets(RoundOf(s), Admission(s).buf)
    ensures !AfterProbes(s).probe.ask && !AfterProbes(s).probe.tell
  {
    hide Admission, DuePackets, RoundOf;
    var due := DuePackets(RoundOf(s), Admission(s).buf);
    assert AckPackets(s, s.acks) == [] && ProbePackets(s, s.acks, AfterAcks(s).probe) == [];
    assert [] + [] + due == due;
  }

  lemma FlushQuiet(s: State, limit: nat)
    requires Quiet(s) && limit > |Admission(s).buf|
    ensures var r := Flush(s, limit);
            && r.ok && Flushed(s, r) && CompletelyFlushed(s, r) && Quiet(r.st) && r.st.cong.cwnd >= 1
  {
    hide Flush, Admission, DuePackets, RoundOf, FlushPlan, AllPassed, ReachedData, ProbeTimer, AfterProbes;
    QuietPlan(s);
    FlushState(s, limit);
    var k := FlushSends(s, limit);
    FlushOpensWindow(s, limit);
  }

  lemma AdmitNothing(s: State)
    requires s.snd.queue == []
    ensures Admission(s) == s.snd
  {
    hide UsedWindow, StampOf;
  }

  // ---- the first message of a new endpoint ----------------------------------------------

  function New(conv: u32): State { Initial(DefaultConfig(false), conv, 0) }

  /** The clock of an update that flushes. */
  function At(s: State, now: u32): State { s.(clock := Schedule(Touch(s.clock, now), s.cfg.interval)) }

  /** A new endpoint after its first update, at time 0. */
  ghost predicate Started(s: State, conv: u32) {
    && Quiet(s) && s.cfg == DefaultConfig(false) && s.conv == conv && !s.inputConv && s.clock == Clock(0, 100, true)
    && s.snd == Sender(0, 0, [], []) && s.rcv == Receiver(0, [], []) && s.rtt == Rtt(0, 0, RTO_DEF) && s.cong.cwnd >= 1
    && s.rmtWnd == WND_RCV
  }

  lemma FirstUpdate(conv: u32)
    ensures Started(Update(New(conv), 0, 1).st, conv)
  {
    hide Flush, Admission, RoundOf;
    var s := New(conv);
    var u := s.(clock := Clock(0, 100, true));
    assert At(s, 0) == u;
    AdmitNothing(u);
    FlushQuiet(u, 1);
    assert Update(s, 0, 1) == Flush(u, 1);
  }

  lemma FirstSend(s: State, conv: u32)
    requires Started(s, conv)
    ensures SendData(s, [1]).st == s.(snd := Sender(0, 0, [Chunk(0, [1])], []))
  {
    var d: seq<byte> := [1];
    assert d[0..] == d && d[..1] == d;
    assert Fragments(d, s.cfg.mss, 1, false) == [Chunk(0, d)] + Fragments(d[1..], s.cfg.mss, 0, false);
  }

  // ---- its retransmissions ----------------------------------------------------------

  const RTO := 200

  /** One segment of one byte has been sent and has timed out `k` times, with no answer; nothing else has happened. */
  ghost predicate Backoff(s: State, k: nat) {
    && Quiet(s) && s.cfg == DefaultConfig(false) && s.rcv == Receiver(0, [], []) && s.rtt.rto == RTO
    && |s.snd.buf| == 1 && s.snd == Sender(0, 1, [], s.snd.buf)
    && (var g := s.snd.buf[0];
        && g.xmit == k + 1 && g.rto == RTO * (k + 1) && g.fastack == 0
        && g.sn == 0 && g.cmd == CMD_PUSH && g.data == [1]
        && g.resendts == Add32(s.clock.current, if k == 0 then RTO + RTO / 8 else RTO * (k + 1)))
    && 0 <= Timediff(s.clock.current, s.clock.flushAt) + 100 < 100
  }

  lemma AdmitOne(s: State, c: Chunk)
    requires s.snd == Sender(0, 0, [c], []) && UsedWindow(s) > 0
    ensures Admission(s) == Sender(0, 1, [], [Admitted(StampOf(s), 0, c)])
  {
    hide UsedWindow, StampOf;
    var k, added := AdmitFacts(s.snd, UsedWindow(s), StampOf(s));
    assert added == [Admitted(StampOf(s), 0, c)];
  }

  /** The first segment of an endpoint that sends one byte at time 100. */
  function FirstPacket(conv: u32): Packet { Packet(conv, 81, 0, 128, 100, 0, 0, [1]) }

  /** The last segment of the last datagram. */
  predicate Last(sent: seq<Datagram>, p: Packet) {
    sent != [] && sent[|sent| - 1] != [] && sent[|sent| - 1][|sent[|sent| - 1]| - 1] == p
  }

  /** The segment of a new endpoint goes out with the update at 100. */
  lemma SecondUpdate(s: State, conv: u32)
    requires Started(s, conv)
    ensures var t := s.(snd := Sender(0, 0, [Chunk(0, [1])], []));
            var r := Update(t, 100, 2);
            && r.ok && Backoff(r.st, 0) && r.sent != [] && r.st.clock.flushAt == 200
            && Last(r.sent, FirstPacket(conv))
  {
    hide Flush, Admission, RoundOf, FlushPlan, DuePackets;
    var t := s.(snd := Sender(0, 0, [Chunk(0, [1])], []));
    var u := t.(clock := Clock(100, 200, true));
    assert At(t, 100) == u;
    AdmitOne(u, Chunk(0, [1]));
    FlushQuiet(u, 2);
    QuietPlan(u);
    var g := Admission(u).buf[0];
    RoundOfNew(u);
    FirstPassed(RoundOf(u), Admission(u).buf, Flush(u, 2).st.snd.buf);
    RestampedIsSame(RoundOf(u), g);
    OneDue(RoundOf(u), g);
    FlushEndsWithPlan(u, 2);
  }

  lemma RoundOfNew(s: State)
    ensures var e := RoundOf(s);
            && e.current == s.clock.current && e.rto == s.rtt.rto
            && e.nodelay == s.cfg.nodelay && e.resent == Resent(s.cfg)
            && e.wnd == WndUnused(s.rcv, s.cfg.rcvWnd) && e.una == s.rcv.nxt
  {
  }

  lemma OneDue(e: Round, g: Segment)
    ensures DuePackets(e, [g]) == if DueOf(e, g).NotDue? then [] else [PacketOf(Restamped(e, g))]
  {
    hide DueOf, Restamped;
    assert [g][..0] == [];
    assert DuePackets(e, []) == [];
  }

  lemma SlapLater(c: Clock, d: nat)
    requires c.updated && 0 <= Timediff(c.current, c.flushAt) + 100 < 100 && 200 <= d < TWO_31
    ensures Slap(Touch(c, Add32(c.current, d))).0 >= 0
  {
  }

  lemma TimedOut(e: Round, g: Segment, now: u32)
    requires e.current == now == g.resendts && g.xmit > 0 && !e.nodelay && g.xmit + 1 < TWO_32 && g.rto + e.rto < TWO_32
    ensures DueOf(e, g).Timeout?
    ensures var h := Restamped(e, g);
            h.xmit == g.xmit + 1 && h.rto == g.rto + e.rto && h.resendts == Add32(now, h.rto) && h.fastack == g.fastack
  {
    assert Timediff(now, g.resendts) == 0;
    hide Timediff;
  }

  /** One more timeout, at the moment of the deadline. */
  lemma BackoffStep(s: State, k: nat)
    requires Backoff(s, k) && RTO * (k + 1) < TWO_31
    ensures var now := s.snd.buf[0].resendts; Update(s, now, 2).ok && Backoff(Update(s, now, 2).st, k + 1)
  {
    hide Flush, Admission, RoundOf, Slap, Schedule, Timediff;
    var g := s.snd.buf[0];
    var now := g.resendts;
    SlapLater(s.clock, if k == 0 then RTO + RTO / 8 else RTO * (k + 1));
    var u := At(s, now);
    T.ScheduleIsAhead(Touch(s.clock, now), 100);
    AdmitNothing(u);
    FlushQuiet(u, 2);
    RoundOfNew(u);
    TimedOut(RoundOf(u), g, now);
    RestampedIsSame(RoundOf(u), g);
    FirstPassed(RoundOf(u), Admission(u).buf, Flush(u, 2).st.snd.buf);
  }

  lemma PerformOne(s: State, ops: seq<Operation>, op: Operation)
    requires s.cfg.mss > 0 && Roomy(s, ops) && HasRoom(PerformAll(s, ops), op)
    ensures Roomy(s, ops + [op]) && PerformAll(s, ops + [op]) == Perform(PerformAll(s, ops), op)
  {
    hide Perform, HasRoom;
    assert (ops + [op])[..|ops|] == ops;
  }

  lemma FirstLife(conv: u32) returns (ops: seq<Operation>)
    ensures Roomy(New(conv), ops) && ops == [Tick(0, 1), Submit([1])]
    ensures Started(PerformAll(New(conv), ops[..1]), conv)
    ensures PerformAll(New(conv), ops) == PerformAll(New(conv), ops[..1]).(snd := Sender(0, 0, [Chunk(0, [1])], []))
  {
    hide Update, SendData;
    var s := New(conv);
    assert PerformAll(s, []) == s && [] + [Tick(0, 1)] == [Tick(0, 1)];
    PerformOne(s, [], Tick(0, 1));
    FirstUpdate(conv);
    PerformOne(s, [Tick(0, 1)], Submit([1]));
    FirstSend(PerformAll(s, [Tick(0, 1)]), conv);
    ops := [Tick(0, 1)] + [Submit([1])];
    assert ops[..1] == [Tick(0, 1)];
  }

  lemma SecondLife(conv: u32) returns (ops: seq<Operation>)
    ensures Roomy(New(conv), ops) && Backoff(PerformAll(New(conv), ops), 0)
    ensures PerformAll(New(conv), ops).clock == Clock(100, 200, true)
  {
    hide Update, SendData, Backoff, Started, HasRoom;
    ops := FirstLife(conv);
    var t := PerformAll(New(conv), ops[..1]);
    SecondUpdate(t, conv);
    StartedRoom(t, conv);
    PerformOne(New(conv), ops, Tick(100, 2));
    UpdateSetsClock(PerformAll(New(conv), ops), 100, 2);
    ops := ops + [Tick(100, 2)];
  }

  lemma UpdateSetsClock(s: State, now: u32, limit: nat)
    ensures Update(s, now, limit).st.clock.current == now && Update(s, now, limit).st.clock.updated
  {
    hide Flush, Slap;
    T.FlushClock(At(s, now), limit);
  }

  /** Such a life exists for every number of timeouts up to half the clock's range. */
  lemma {:induction false} BackoffLife(conv: u32, k: nat) returns (ops: seq<Operation>)
    requires RTO * k < TWO_31
    ensures Roomy(New(conv), ops) && Backoff(PerformAll(New(conv), ops), k)
  {
    hide Update, Backoff, HasRoom;
    if k == 0 {
      ops := SecondLife(conv);
    } else {
      ops := BackoffLife(conv, k - 1);
      var t := PerformAll(New(conv), ops);
      BackoffParts(t, k - 1);
      BackoffStep(t, k - 1);
      PerformOne(New(conv), ops, Tick(t.snd.buf[0].resendts, 2));
      ops := ops + [Tick(t.snd.buf[0].resendts, 2)];
    }
  }

  lemma BackoffParts(s: State, k: nat)
    requires Backoff(s, k)
    ensures |s.snd.buf| == 1 && forall now: u32, limit: nat :: HasRoom(s, Tick(now, limit))
  {
  }

  lemma BackoffTimers(s: State, k: nat)
    requires Backoff(s, k)
    ensures T.TimerInv(s)
  {
  }

  lemma StartedRoom(s: State, conv: u32)
    requires Started(s, conv)
    ensures HasRoom(s.(snd := Sender(0, 0, [Chunk(0, [1])], [])), Tick(100, 2))
  {
  }

  // ---- what they show ---------------------------------------------------------------

  /** A flush is put off: on a new endpoint the first update stores 100 as the time of the next. A message is sent
      after it. The update loop asks whether 100 is less than the time and so skips the update at 100, which
      would have sent the message. */
  lemma AFlushIsSkipped(conv: u32) returns (ops: seq<Operation>)
    ensures Roomy(New(conv), ops) && ops == [Tick(0, 1), Submit([1])]
    ensures var next := Add32(Check(PerformAll(New(conv), ops[..1]), 0), 0);
            var r := Update(PerformAll(New(conv), ops), next, 2);
            && next == 100 && !(next < 100) && r.ok && Last(r.sent, FirstPacket(conv))
  {
    hide Update, Started;
    ops := FirstLife(conv);
    var t := PerformAll(New(conv), ops[..1]);
    StartedCheck(t, conv);
    SecondUpdate(t, conv);
  }

  lemma StartedCheck(s: State, conv: u32)
    requires Started(s, conv)
    ensures Check(s, 0) == 100
  {
  }

  /** A deadline that is not ahead: a segment that has timed out 10,737,417 times, always updated at its deadline,
      is given a delay of more than half the clock's range by the next timeout, and is due again at once. */
  lemma DelayOutgrowsTheClock(conv: u32) returns (ops: seq<Operation>, now: u32)
    ensures Roomy(New(conv), ops)
    ensures var t := PerformAll(New(conv), ops); var r := Update(t, now, 2);
            && EndInv(t) && T.TimerInv(t) && r.ok && |r.st.snd.buf| == 1 && r.st.clock.current == now
            && Timediff(now, r.st.snd.buf[0].resendts) >= 0
  {
    hide Update, Backoff, HasRoom, EndInv, Timediff, T.TimerInv;
    var k := 10_737_417;
    ops := BackoffLife(conv, k);
    var t := PerformAll(New(conv), ops);
    BackoffParts(t, k);
    BackoffTimers(t, k);
    now := t.snd.buf[0].resendts;
    BackoffStep(t, k);
    UpdateSetsClock(t, now, 2);
    BackoffDeadline(Update(t, now, 2).st, k + 1);
    InitialInv(DefaultConfig(false), conv, 0);
    PerformAllKeeps(New(conv), ops);
  }

  lemma BackoffDeadline(s: State, k: nat)
    requires Backoff(s, k) && k > 0 && TWO_31 < RTO * (k + 1) < TWO_32
    ensures |s.snd.buf| == 1 && Timediff(s.clock.current, s.snd.buf[0].resendts) >= 0
  {
    hide Timediff, Add32;
    T.AheadExactly(s.clock.current, RTO * (k + 1));
  }

  /** `check` stands still: when the next update comes exactly half the clock's range after the deadline, it
      flushes but takes the deadline to be ahead, and `check` takes it to be past. */
  lemma CheckStandsStill(conv: u32) returns (ops: seq<Operation>, now: u32)
    ensures Roomy(New(conv), ops)
    ensures var t := PerformAll(New(conv), ops); var r := Update(t, now, 2);
            Slap(Touch(t.clock, now)).0 >= 0 && r.ok && Check(r.st, now) == 0 && t.snd.buf != [] &&
              r.st.snd.buf == t.snd.buf
  {
    hide Update, HasRoom, EndInv, Roomy;
    ops := SecondLife(conv);
    var t := PerformAll(New(conv), ops);
    now := Add32(325, TWO_31);
    InitialInv(DefaultConfig(false), conv, 0);
    PerformAllKeeps(New(conv), ops);
    HalfRangeLater(t, now);
  }

  lemma HalfRangeLater(t: State, now: u32)
    requires Backoff(t, 0) && EndInv(t) && t.clock == Clock(100, 200, true) && now == Add32(325, TWO_31)
    ensures var r := Update(t, now, 2);
            Slap(Touch(t.clock, now)).0 >= 0 && r.ok && Check(r.st, now) == 0 && t.snd.buf != [] &&
              r.st.snd.buf == t.snd.buf
  {
    hide Flush, Admission, RoundOf, Check, EndInv, Schedule;
    var g := t.snd.buf[0];
    assert g.resendts == 325 && Timediff(now, 325) == -TWO_31;
    assert Slap(Touch(t.clock, now)).0 >= 0;
    var u := At(t, now);
    T.ScheduleIsAhead(Touch(t.clock, now), 100);
    AdmitNothing(u);
    FlushQuiet(u, 2);
    RoundOfNew(u);
    RestampedIsSame(RoundOf(u), g);
    FirstPassed(RoundOf(u), Admission(u).buf, Flush(u, 2).st.snd.buf);
    assert T.Stranded(t.snd.buf[0], now, Resent(t.cfg));
    T.CheckAfterUpdate(t, now, 2);
  }

  // ---- a first exchange, byte by byte ----------------------------------------------------

  /** The first segment in bytes, when the conversation is 1. */
  lemma FirstBytes()
    ensures Encode(FirstPacket(1)) ==
            [1, 0, 0, 0] + [81, 0, 128, 0] + [100, 0, 0, 0] + [0, 0, 0, 0] + [0, 0, 0, 0] + [1, 0, 0, 0] + [1]
  {
    var p := FirstPacket(1);
    assert Le32(1) == [1, 0, 0, 0] && Le32(100) == [100, 0, 0, 0] && Le32(0) == [0, 0, 0, 0] && Le16(128) == [128, 0];
    hide Le32, Le16;
    assert FirstHalf(p) == [1, 0, 0, 0] + [81, 0, 128, 0];
    assert SecondHalf(p) == [100, 0, 0, 0] + [0, 0, 0, 0] + [0, 0, 0, 0] + [1, 0, 0, 0];
  }

  /** The answer to it: a segment that acknowledges number 0, echoes the time stamp, expects number 1 and announces
      a window of one segment less. */
  function FirstAnswer(conv: u32): Packet { Packet(conv, 82, 0, 127, 100, 0, 1, []) }

  lemma FirstArrives(s: State, conv: u32)
    requires Started(s, conv)
    ensures InputPackets(s, [FirstPacket(conv)]).st.cfg == s.cfg
    ensures var p := FirstPacket(conv); var t := Conclude(InputPackets(s, [p]), s.snd.una);
            t == s.(rmtWnd := 128, rcv := Receiver(1, [p], []), acks := [Ack(0, 100)])
  {
    var p := FirstPacket(conv);
    var i := Inflow(s, false, 0);
    assert [p][..0] == [];
    assert TakeHeader(s, p) == s.(rmtWnd := 128);
    PushFirst(s.(rmtWnd := 128), p);
    hide TakeHeader, TakePush;
    assert InputAll(i, []) == i;
    assert InputAll(i, [p]) == InputOne(i, p);
  }

  lemma PushFirst(s: State, p: Packet)
    requires s.rcv == Receiver(0, [], []) && s.acks == [] && s.cfg.rcvWnd == 128 && p.sn == 0
    ensures TakePush(s, p) == s.(rcv := Receiver(1, [p], []), acks := [Ack(0, p.ts)])
  {
    assert Insert([], p) == [p];
    var r := Receiver(0, [], [p]);
    assert [p][1..] == [] && [] + [p] == [p];
    assert Drain(Receiver(1, [p], []), 128) == Receiver(1, [p], []);
  }

  /** A new endpoint that has received it, with whatever key, answers with its next update. */
  lemma FirstExchange(s: State, conv: u32, key: Option<Key>)
    requires Started(s, conv)
    ensures s.cfg.mss > 0
    ensures var r := Intake(s, key, OnWire(key, [FirstPacket(conv)]), true);
            r.result.Ok? && Update(r.st, 100, 3).ok && Last(Update(r.st, 100, 3).sent, FirstAnswer(conv))
  {
    hide Conclude, InputPackets, OnWire, Flush, FlushPlan, Intake;
    var p := FirstPacket(conv);
    assert Sendable(p, conv);
    Pr.InputOfGood(s, [p], key);
    FirstArrives(s, conv);
    var t := s.(rmtWnd := 128, rcv := Receiver(1, [p], []), acks := [Ack(0, 100)]);
    var u := t.(clock := Clock(100, 200, true));
    assert At(t, 100) == u;
    OneAckPlan(u);
    var k := FlushSends(u, 3);
    FlushEndsWithPlan(u, 3);
  }

  lemma OneAckPlan(s: State)
    requires |s.acks| == 1 && !s.probe.ask && !s.probe.tell && s.rmtWnd > 0 && s.snd.queue == [] && s.snd.buf == []
    ensures FlushPlan(s) ==
            [Packet(s.conv, CMD_ACK, 0, WndUnused(s.rcv, s.cfg.rcvWnd), s.acks[0].ts, s.acks[0].sn, s.rcv.nxt, [])]
  {
    hide WndUnused, RoundOf;
    AdmitNothing(s);
    assert ProbePackets(s, s.acks, AfterAcks(s).probe) == [];
    assert DuePackets(RoundOf(s), []) == [];
  }
}
