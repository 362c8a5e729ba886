/** No reachable state is stuck: whatever has happened, there is a continuation in which everything that
    was sent arrives. */
module Progress {
  import opened Arith
  import opened Errors
  import opened Wire
  import opened Chunks
  import opened Receiving
  import opened Sending
  import opened Control
  import opened Packing
  import opened Engine
  import opened Endpoint
  import opened Flushing
  import opened Network
  import opened Preservation
  import opened Safety
  import opened Traffic

  // ---- time -----------------------------------------------------------------------

  /** An update does not set its side's clock back. */
  predicate InTime(s: System, a: Action) {
    a.DoUpdate? ==> Timediff(a.now, At(s, a.side).st.clock.current) >= 0
  }

  /** No update among the actions does, when it is taken. */
  predicate OnTime(s: System, acts: seq<Action>)
    requires Runnable(s)
    decreases |acts|
  {
    acts == [] || (StepRuns(s, acts[0]); InTime(s, acts[0]) && OnTime(Step(s, acts[0]), acts[1..]))
  }

  lemma {:induction false} OnTimeAppend(s: System, acts: seq<Action>, a: Action)
    requires Runnable(s) && OnTime(s, acts) && InTime(Run(s, acts), a)
    ensures OnTime(s, acts + [a])
    decreases |acts|
  {
    hide Step, InTime;
    if acts == [] {
      assert acts + [a] == [a] && [a][1..] == [];
      StepRuns(s, a);
      assert OnTime(Step(s, a), []);
    } else {
      StepRuns(s, acts[0]);
      assert (acts + [a])[1..] == acts[1..] + [a];
      OnTimeAppend(Step(s, acts[0]), acts[1..], a);
    }
  }

  /** A continuation so far: the actions taken from `s0`, and the state they lead to. */
  datatype Path = Path(acts: seq<Action>, s: System)

  ghost predicate Follows(s0: System, p: Path, conv: u32) {
    Runnable(s0) && p.s == Run(s0, p.acts) && OnTime(s0, p.acts) && Pair(p.s.left, p.s.right, conv)
  }

  /** One side and the other are in order, seen from either. */
  lemma Sides(p: Path, side: Side, conv: u32)
    requires Pair(p.s.left, p.s.right, conv)
    ensures Pair(At(p.s, side), At(p.s, Other(side)), conv) && At(p.s, side).st.cfg.mss > 0
  {
    hide Pair;
    PairSymmetric(p.s.left, p.s.right, conv);
    PairRuns(p.s.left, p.s.right, conv);
  }

  lemma FollowsSides(s0: System, p: Path, side: Side, conv: u32)
    requires Follows(s0, p, conv)
    ensures Pair(At(p.s, side), At(p.s, Other(side)), conv) && At(p.s, side).st.cfg.mss > 0
  {
    hide Pair;
    Sides(p, side, conv);
  }

  lemma Extend(s0: System, p: Path, act: Action, conv: u32) returns (q: Path)
    requires Follows(s0, p, conv) && InTime(p.s, act)
    ensures Follows(s0, q, conv) && q.s == Step(p.s, act)
  {
    hide Pair, Step, OnTime, InTime;
    OnTimeAppend(s0, p.acts, act);
    RunAppend(s0, p.acts, [act]);
    assert [act][1..] == [];
    StepRuns(p.s, act);
    assert Run(p.s, [act]) == Run(Step(p.s, act), []);
    StepKeeps(p.s, act, conv);
    q := Path(p.acts + [act], Step(p.s, act));
  }

  lemma UpdateTo(s0: System, p: Path, side: Side, now: u32, limit: nat, conv: u32) returns (q: Path)
    requires Follows(s0, p, conv) && Timediff(now, At(p.s, side).st.clock.current) >= 0
    ensures Follows(s0, q, conv) && At(q.s, Other(side)) == At(p.s, Other(side))
    ensures At(q.s, side) == NodeFlushed(At(p.s, side), Update(At(p.s, side).st, now, limit))
  {
    hide Follows, Update, NodeFlushed, Timediff;
    q := Extend(s0, p, DoUpdate(side, now, limit), conv);
  }

  lemma FlushTo(s0: System, p: Path, side: Side, limit: nat, conv: u32) returns (q: Path)
    requires Follows(s0, p, conv)
    ensures Follows(s0, q, conv) && At(q.s, Other(side)) == At(p.s, Other(side))
    ensures At(q.s, side) == NodeFlushed(At(p.s, side), FlushAsync(At(p.s, side).st, limit))
  {
    hide Follows, FlushAsync, NodeFlushed;
    q := Extend(s0, p, DoFlush(side, limit), conv);
  }

  /** Delivering a datagram the other side has sent. */
  lemma DeliverTo(s0: System, p: Path, side: Side, d: Datagram, conv: u32) returns (q: Path)
    requires Follows(s0, p, conv) && d in At(p.s, Other(side)).net
    ensures Follows(s0, q, conv) && At(q.s, Other(side)) == At(p.s, Other(side))
    ensures var a, b := At(p.s, side), At(p.s, Other(side));
            && a.st.cfg.mss > 0 && Pair(a, b, conv) && d != [] && AllGood(d, b.log, b.st.rcv, conv)
            && var i := InputPackets(a.st, d);
               i.st.cfg == a.st.cfg && At(q.s, side) == a.(st := Conclude(i, a.st.snd.una))
  {
    hide Follows, Conclude, InputPackets, OnWire, Intake, AllGood, Pair;
    FollowsSides(s0, p, side, conv);
    q := Extend(s0, p, Deliver(side, d), conv);
    var a, b := At(p.s, side), At(p.s, Other(side));
    DeliveredIsGood(a, b, d, p.s.key, conv);
  }

  lemma DeliveredIsGood(a: Node, b: Node, d: Datagram, key: Option<Key>, conv: u32)
    requires Pair(a, b, conv) && d in b.net && a.st.cfg.mss > 0
    ensures d != [] && AllGood(d, b.log, b.st.rcv, conv)
    ensures var i := InputPackets(a.st, d);
            i.st.cfg == a.st.cfg && NodeInput(a, OnWire(key, d), key).st == Conclude(i, a.st.snd.una)
    ensures a.st.conv == conv && !a.st.inputConv
  {
    hide EndInv, Accounted, SegmentsGood, AcksGood, Link, Conclude, InputPackets, AllGood, OnWire, Intake;
    GoodIsSendable(d, b.log, b.st.rcv, conv);
    InputOfGood(a.st, d, key);
  }

  // ---- draining the reader --------------------------------------------------------

  function Load(n: Node): nat { |n.st.rcv.queue| + |n.st.rcv.buf| }

  lemma RecvLowersLoad(n: Node, size: nat, conv: u32)
    requires NodeInv(n, conv) && PeekSize(ChunksOf(n.st.rcv.queue)) == Ok(size)
    ensures var m := NodeRecv(n, size);
            && Load(m) < Load(n) && m.st.snd == n.st.snd && m.st.cfg == n.st.cfg && m.sent == n.sent
            && (n.st.probe.tell ==> m.st.probe.tell)
  {
    hide AcksGood, AllGood, NetGood, Accounted, SegmentsGood, PeekSize, MessageEnd, Bytes, Drain;
    EndInvParts(n.st);
    hide EndInv, RcvInv;
    var k := RecvFacts(n.st.rcv, n.st.cfg.rcvWnd, size);
  }

  /** The reader takes what there is. Afterwards the front of the queue is at most part of a message. */
  lemma {:induction false} DrainReader(s0: System, p: Path, side: Side, conv: u32) returns (q: Path)
    requires Follows(s0, p, conv)
    ensures Follows(s0, q, conv) && At(q.s, Other(side)) == At(p.s, Other(side))
    ensures PeekSize(ChunksOf(At(q.s, side).st.rcv.queue)).Err?
    ensures var m, n := At(p.s, side), At(q.s, side);
            n.st.snd == m.st.snd && n.st.cfg == m.st.cfg && n.sent == m.sent && (m.st.probe.tell ==> n.st.probe.tell)
    decreases Load(At(p.s, side))
  {
    hide Pair, PeekSize;
    var n := At(p.s, side);
    if PeekSize(ChunksOf(n.st.rcv.queue)).Ok? {
      var size := PeekSize(ChunksOf(n.st.rcv.queue)).value;
      Sides(p, side, conv);
      PairNode(n, At(p.s, Other(side)), conv);
      RecvLowersLoad(n, size, conv);
      q := Extend(s0, p, DoRecv(side, size), conv);
      hide NodeRecv;
      q := DrainReader(s0, q, side, conv);
    } else {
      q := p;
    }
  }

  lemma PairNode(a: Node, b: Node, conv: u32)
    requires Pair(a, b, conv)
    ensures NodeInv(a, conv)
  {
    hide NodeInv, Link;
  }

  /** With the reader drained, the sender's oldest unacknowledged number is not beyond what the receiver expects. */
  lemma CaughtUp(a: Node, b: Node, conv: u32)
    requires Pair(a, b, conv) && |b.st.rcv.queue| < b.st.cfg.rcvWnd
    ensures a.st.snd.una <= b.st.rcv.nxt
    ensures a.st.snd.buf == [] ==> b.st.rcv.nxt == |a.log|
  {
    EndInvParts(a.st);
    EndInvParts(b.st);
    hide EndInv, Accounted, SegmentsGood, AcksGood, AllGood, NetGood, Delivered;
    var r := b.st.rcv;
    if r.nxt < |a.log| {
      assert !Has(r, r.nxt) by {
        forall i | 0 <= i < |r.buf| ensures r.buf[i].sn != r.nxt {
          assert i > 0 ==> r.buf[0].sn < r.buf[i].sn;
        }
      }
      assert Keeps(a.st.snd.buf, r.nxt);
    }
  }

  lemma DrainedIsOpen(a: Node, b: Node, conv: u32)
    requires Pair(a, b, conv) && PeekSize(ChunksOf(b.st.rcv.queue)).Err?
    ensures |b.st.rcv.queue| < b.st.cfg.rcvWnd && WndUnused(b.st.rcv, b.st.cfg.rcvWnd) > 0
    ensures a.st.snd.una <= b.st.rcv.nxt
  {
    hide PeekSize, Pair;
    QueueYields(a, b, conv);
    CaughtUp(a, b, conv);
  }

  // ---- what one node does ---------------------------------------------------------

  /** The state an update at a late enough time flushes. */
  function Ticked(s: State, now: u32): State { s.(clock := Schedule(Touch(s.clock, now), s.cfg.interval)) }

  lemma TickedFacts(s: State, now: u32, limit: nat)
    requires Slap(Touch(s.clock, now)).0 >= 0
    ensures var u := Ticked(s, now);
            u == s.(clock := u.clock) && u.clock.updated && u.clock.current == now &&
              Update(s, now, limit) == Flush(u, limit)
  {
    hide Flush, Slap;
  }

  /** The window of a sender is open, as far as the sender knows. */
  predicate Open(s: State) { s.rmtWnd > 0 && s.cong.cwnd >= 1 }

  /** The front of the send buffer once a flush has admitted what fits. */
  lemma FrontAfterAdmission(n: Node, u: State, conv: u32)
    requires NodeInv(n, conv) && u == n.st.(clock := u.clock)
    requires n.st.snd.buf != [] || (n.st.snd.queue != [] && Open(n.st))
    ensures var buf := Admission(u).buf;
            && buf != [] && buf[0].sn == n.st.snd.una && buf[0].cmd == CMD_PUSH
            && (if n.st.snd.buf != [] then buf[0] == n.st.snd.buf[0] else buf[0].xmit == 0)
            && |buf| + |Admission(u).queue| == WaitSnd(n.st)
  {
    hide Admit, AcksGood, AllGood, NetGood, Accounted, WndUnused;
    EndInvParts(n.st);
    WindowFits(u);
    SenderWindow(n.st);
    hide EndInv;
    var k, added := AdmitKeeps(u.snd, UsedWindow(u), StampOf(u), u.cfg.sndWnd);
    if n.st.snd.buf == [] {
      assert UsedWindow(u) > 0;
      assert k > 0;
      assert Admission(u).buf[0] == added[0];
    } else {
      assert Admission(u).buf[0] == n.st.snd.buf[0];
    }
  }

  lemma SenderWindow(s: State)
    requires EndInv(s)
    ensures s.cfg.sndWnd > 0
  {
  }

  /** A successful flush keeps what is to be sent, and admits before it transmits. */
  lemma FlushedSender(n: Node, u: State, limit: nat, conv: u32)
    requires NodeInv(n, conv) && u == n.st.(clock := u.clock) && u.clock.updated && limit > |FlushPlan(u)|
    ensures var r := Flush(u, limit); var m := NodeFlushed(n, r);
            && r.ok && WaitSnd(m.st) == WaitSnd(n.st) && m.sent == n.sent
            && m.st.rmtWnd == n.st.rmtWnd && m.st.cfg == n.st.cfg
            && m.st.cong.cwnd >= 1 && m.st.probe == AfterProbes(u).probe
            && (forall i | 0 <= i < |r.sent| :: r.sent[i] in m.net)
            && m.st.clock == u.clock && m.st.snd.una == n.st.snd.una && n.net <= m.net
            && |m.st.snd.buf| == |Admission(u).buf|
            && (m.st.snd.buf != [] ==> m.st.snd.buf[0] == Restamped(RoundOf(u), Admission(u).buf[0]) &&
                                       m.st.snd.buf[0].sn == Admission(u).buf[0].sn)
  {
    hide Flush, FlushPlan, RoundOf, Restamped, AfterProbes, SameSegment, AllPassed, Admit, AcksGood, AllGood, NetGood,
         Accounted, SegmentsGood, WndUnused;
    var k := FlushSends(u, limit);
    FlushState(u, limit);
    FirstPassed(RoundOf(u), Admission(u).buf, Flush(u, limit).st.snd.buf);
    FlushOpensWindow(u, limit);
    EndInvParts(n.st);
    WindowFits(u);
    hide EndInv;
    var j, added := AdmitKeeps(u.snd, UsedWindow(u), StampOf(u), u.cfg.sndWnd);
    var m := NodeFlushed(n, Flush(u, limit));
    if m.st.snd.buf != [] {
      RestampedIsSame(RoundOf(u), Admission(u).buf[0]);
      SameSn(Admission(u).buf[0], m.st.snd.buf[0]);
    }
  }

  lemma SameSn(a: Segment, b: Segment)
    ensures SameSegment(a, b) ==> a.sn == b.sn
  {
  }

  // ---- waiting for a deadline -------------------------------------------------------

  /** What an update at a late enough time is to send: the oldest segment, or the question for the window. */
  datatype Aim = Oldest | Question

  predicate Waits(s: State, aim: Aim) {
    match aim
    case Oldest => s.snd.buf != [] || (s.snd.queue != [] && Open(s))
    case Question => s.rmtWnd == 0 && s.probe.wait > 0
  }

  function Deadline(s: State, aim: Aim): u32 {
    match aim
    case Oldest => if s.snd.buf != [] then s.snd.buf[0].resendts else 0
    case Question => s.probe.ts
  }

  function CommandOf(aim: Aim): u8 { if aim.Oldest? then CMD_PUSH else CMD_WASK }

  /** A datagram with the command; for data, with the number. */
  ghost predicate Carries(d: Datagram, cmd: u8, sn: u32) {
    exists j | 0 <= j < |d| :: d[j].cmd == cmd && (cmd == CMD_PUSH ==> d[j].sn == sn)
  }

  ghost predicate SentOut(n: Node, aim: Aim) {
    && (exists d | d in n.net :: Carries(d, CommandOf(aim), n.st.snd.una))
    && (aim.Oldest? ==> Keeps(n.st.snd.buf, n.st.snd.una))
  }

  /** What an update leaves alone. */
  ghost predicate Onward(n: Node, m: Node) {
    && WaitSnd(m.st) == WaitSnd(n.st) && m.sent == n.sent && m.st.snd.una == n.st.snd.una
    && (n.st.cong.cwnd >= 1 ==> m.st.cong.cwnd >= 1)
  }

  predicate Flushes(s: State, now: u32) { Slap(Touch(s.clock, now)).0 >= 0 }

  /** One update has sent what it was to send, or still waits for the same deadline; if it flushed, because the
      deadline is ahead. */
  ghost predicate UpdatedFor(n: Node, m: Node, aim: Aim, now: u32) {
    && Onward(n, m) && m.st.clock.current == now
    && (SentOut(m, aim) ||
        (Waits(m.st, aim) && Deadline(m.st, aim) == Deadline(n.st, aim) &&
         (Flushes(n.st, now) ==> Timediff(now, Deadline(n.st, aim)) < 0)))
    && (!Flushes(n.st, now) ==> m.st.clock.flushAt == n.st.clock.flushAt && m.st.clock.updated)
  }

  lemma UpdateFor(n: Node, aim: Aim, now: u32, conv: u32) returns (limit: nat)
    requires NodeInv(n, conv) && Waits(n.st, aim)
    ensures UpdatedFor(n, NodeFlushed(n, Update(n.st, now, limit)), aim, now)
  {
    hide NodeInv, Slap, Timediff, Update, Deadline, UpdatedFor, Waits;
    if !Flushes(n.st, now) {
      limit := 0;
      IdleUpdate(n, aim, now);
    } else if aim.Oldest? {
      limit := OldestUpdate(n, now, conv);
    } else {
      limit := QuestionUpdate(n, now, conv);
    }
  }

  lemma IdleUpdate(n: Node, aim: Aim, now: u32)
    requires Waits(n.st, aim) && !Flushes(n.st, now)
    ensures UpdatedFor(n, NodeFlushed(n, Update(n.st, now, 0)), aim, now)
  {
    hide SentOut, Timediff, Flush;
    NotFlushing(n.st.clock, now);
  }

  lemma NotFlushing(c: Clock, now: u32)
    requires Slap(Touch(c, now)).0 < 0
    ensures c.updated && -SLAP <= Timediff(now, c.flushAt) < 0
  {
  }

  lemma OldestUpdate(n: Node, now: u32, conv: u32) returns (limit: nat)
    requires NodeInv(n, conv) && Waits(n.st, Oldest) && Flushes(n.st, now)
    ensures UpdatedFor(n, NodeFlushed(n, Update(n.st, now, limit)), Oldest, now)
  {
    hide NodeInv, Slap, Timediff, Flush, FlushPlan, Admission, Update, Ticked, Restamped, DueOf, RoundOf, NodeFlushed,
         WaitSnd,
         Keeps, Carries;
    var u := Ticked(n.st, now);
    limit := |FlushPlan(u)| + 1;
    TickedFacts(n.st, now, limit);
    FrontAfterAdmission(n, u, conv);
    FlushedSender(n, u, limit, conv);
    var m := NodeFlushed(n, Flush(u, limit));
    FrontIsKept(m.st.snd.buf, n.st.snd.una);
    if DueOf(RoundOf(u), Admission(u).buf[0]).NotDue? {
      RestampedIsSame(RoundOf(u), Admission(u).buf[0]);
      NotDueAtFront(u, now, n.st.snd.buf);
    } else {
      var k := FrontIsPlanned(u);
      var i, j := PlanIsSent(u, limit, k);
      CarriesAt(Flush(u, limit).sent[i], j, CMD_PUSH, n.st.snd.una);
    }
  }

  lemma FrontIsKept(buf: seq<Segment>, sn: u32)
    ensures buf != [] && buf[0].sn == sn ==> Keeps(buf, sn)
  {
  }

  lemma CarriesAt(d: Datagram, j: nat, cmd: u8, sn: u32)
    requires j < |d| && d[j].cmd == cmd && (cmd == CMD_PUSH ==> d[j].sn == sn)
    ensures Carries(d, cmd, sn)
  {
  }

  lemma NotDueAtFront(u: State, now: u32, buf: seq<Segment>)
    requires Admission(u).buf != [] && u.clock.current == now && DueOf(RoundOf(u), Admission(u).buf[0]).NotDue?
    requires if buf != [] then Admission(u).buf[0] == buf[0] else Admission(u).buf[0].xmit == 0
    ensures buf != [] && Timediff(now, buf[0].resendts) < 0
  {
    hide Admission, Timediff;
  }

  lemma QuestionUpdate(n: Node, now: u32, conv: u32) returns (limit: nat)
    requires NodeInv(n, conv) && Waits(n.st, Question) && Flushes(n.st, now)
    ensures UpdatedFor(n, NodeFlushed(n, Update(n.st, now, limit)), Question, now)
  {
    hide NodeInv, Slap, Timediff, Flush, FlushPlan, Admission, Update, Ticked, Restamped, RoundOf, NodeFlushed, WaitSnd,
         Carries, AfterProbes;
    var u := Ticked(n.st, now);
    limit := |FlushPlan(u)| + 1;
    TickedFacts(n.st, now, limit);
    FlushedSender(n, u, limit, conv);
    QuestionTimer(u);
    if Timediff(now, n.st.probe.ts) >= 0 {
      var k := ProbeIsPlanned(u, CMD_WASK);
      var i, j := PlanIsSent(u, limit, k);
      CarriesAt(Flush(u, limit).sent[i], j, CMD_WASK, n.st.snd.una);
    }
  }

  lemma QuestionTimer(u: State)
    requires u.rmtWnd == 0 && u.probe.wait > 0
    ensures if Timediff(u.clock.current, u.probe.ts) >= 0 then AfterAcks(u).probe.ask
            else AfterProbes(u).probe.ts == u.probe.ts && AfterProbes(u).probe.wait == u.probe.wait
  {
    hide Timediff, Add32;
  }

  /** A pending acknowledgement goes out with the next flush. */
  lemma AckGoesOut(n: Node, q: u32, conv: u32) returns (limit: nat, d: Datagram, j: nat)
    requires NodeInv(n, conv) && Pending(n.st.acks, q)
    ensures var m := NodeFlushed(n, FlushAsync(n.st, limit));
            d in m.net && j < |d| && d[j].cmd == CMD_ACK && d[j].sn == q
  {
    var u := n.st.(clock := Touch(n.st.clock, Add32(n.st.clock.current, 10)));
    var i :| 0 <= i < |u.acks| && u.acks[i].sn == q;
    hide NodeInv, Flush, FlushPlan, Admission, WaitSnd, Add32, Pending;
    var k := AckIsPlanned(u, i);
    limit := |FlushPlan(u)| + 1;
    var x;
    x, j := PlanIsSent(u, limit, k);
    d := Flush(u, limit).sent[x];
    FlushedSender(n, u, limit, conv);
  }

  /** An acknowledgement that arrives lowers what is waiting. */
  lemma AckLowers(s: State, d: Datagram, j: nat, q: u32)
    requires EndInv(s) && s.snd.nxt < TWO_31 && q < TWO_31 && Keeps(s.snd.buf, q)
    requires j < |d| && d[j].cmd == CMD_ACK && d[j].sn == q
    requires InputPackets(s, d).st.cfg == s.cfg && s.cfg.mss > 0
    ensures WaitSnd(Conclude(InputPackets(s, d), s.snd.una)) < WaitSnd(s)
  {
    EndInvParts(s);
    hide EndInv, SndInv, Keeps, InputAll, Conclude;
    var i := Inflow(s, false, 0);
    BufferAfterAll(i, d, q, s.cfg.sndWnd);
    AckedIsGone(i, d, j, q, s.cfg.sndWnd);
    ConcludeLength(InputPackets(s, d), s.snd.una);
  }

  lemma InputNeverRaises(s: State, d: Datagram)
    requires EndInv(s) && InputPackets(s, d).st.cfg == s.cfg && s.cfg.mss > 0
    ensures WaitSnd(Conclude(InputPackets(s, d), s.snd.una)) <= WaitSnd(s)
  {
    EndInvParts(s);
    hide EndInv, SndInv, Keeps, InputAll, Conclude;
    BufferAfterAll(Inflow(s, false, 0), d, 0, s.cfg.sndWnd);
    ConcludeLength(InputPackets(s, d), s.snd.una);
  }

  lemma ConcludeLength(i: Inflow, oldUna: u32)
    requires i.st.cfg.mss > 0
    ensures var t := Conclude(i, oldUna);
            |t.snd.buf| == |i.st.snd.buf| && t.snd.queue == i.st.snd.queue && t.acks == i.st.acks &&
              t.probe == i.st.probe && t.rmtWnd == i.st.rmtWnd
    ensures i.st.cong.cwnd >= 1 ==> Conclude(i, oldUna).cong.cwnd >= 1
  {
    hide InFlight, Avoid;
    if 1 <= i.st.cong.cwnd < TWO_16 - 1 {
      AvoidNeverCloses(i.st.cong, i.st.cfg.mss);
    }
  }

  lemma AvoidNeverCloses(c: Congestion, mss: u32)
    requires mss > 0 && 1 <= c.cwnd < TWO_16 - 1
    ensures Avoid(c, mss).cwnd >= 1
  {
    hide Portion, Wrap32;
  }

  // ---- the phases -----------------------------------------------------------------

  /** One update on the way, at a time that is not before the clock. */
  lemma UpdateOn(s0: System, p: Path, side: Side, aim: Aim, now: u32, conv: u32) returns (q: Path)
    requires Follows(s0, p, conv) && Waits(At(p.s, side).st, aim)
    requires Timediff(now, At(p.s, side).st.clock.current) >= 0
    ensures Follows(s0, q, conv) && At(q.s, Other(side)) == At(p.s, Other(side))
    ensures UpdatedFor(At(p.s, side), At(q.s, side), aim, now)
  {
    hide Follows, Waits, UpdatedFor, Update, NodeFlushed, Pair, NodeInv, Timediff;
    FollowsSides(s0, p, side, conv);
    PairNode(At(p.s, side), At(p.s, Other(side)), conv);
    var limit := UpdateFor(At(p.s, side), aim, now, conv);
    q := UpdateTo(s0, p, side, now, limit, conv);
  }

  /** Waiting for a deadline, with the clock going forward only: an update at once, or at the flush time when
      that is near; if the deadline is still ahead, an update half-way to it and one at it; and if the last one
      does not flush, one more at the flush time. One of them sends what is waited for. */
  lemma SendOut(s0: System, p: Path, side: Side, aim: Aim, conv: u32) returns (q: Path)
    requires Follows(s0, p, conv) && Waits(At(p.s, side).st, aim)
    ensures Follows(s0, q, conv) && At(q.s, Other(side)) == At(p.s, Other(side))
    ensures Onward(At(p.s, side), At(q.s, side)) && SentOut(At(q.s, side), aim)
  {
    hide Follows, Waits, SentOut, Timediff, Slap, Deadline, WaitSnd;
    var n := At(p.s, side);
    var t1 := FlushTime(n.st);
    q := UpdateOn(s0, p, side, aim, t1, conv);
    if !SentOut(At(q.s, side), aim) {
      var t := Deadline(n.st, aim);
      var t2 := HalfWay(t1, t);
      q := UpdateOn(s0, q, side, aim, t2, conv);
      if !SentOut(At(q.s, side), aim) {
        q := UpdateOn(s0, q, side, aim, t, conv);
        if !SentOut(At(q.s, side), aim) {
          DeadlineIsNow(t);
          q := LastUpdate(s0, q, side, aim, conv);
        }
      }
    }
  }

  lemma DeadlineIsNow(t: u32)
    ensures Timediff(t, t) == 0
  {
  }

  /** At the deadline with no flush: the flush time is near and not before. */
  lemma LastUpdate(s0: System, p: Path, side: Side, aim: Aim, conv: u32) returns (q: Path)
    requires Follows(s0, p, conv) && Waits(At(p.s, side).st, aim)
    requires At(p.s, side).st.clock.current == Deadline(At(p.s, side).st, aim)
    ensures Follows(s0, q, conv) && At(q.s, Other(side)) == At(p.s, Other(side))
    ensures Onward(At(p.s, side), At(q.s, side)) && SentOut(At(q.s, side), aim)
  {
    hide Follows, Waits, SentOut, Timediff, Slap, Deadline, WaitSnd;
    var n := At(p.s, side);
    var t := FlushTime(n.st);
    q := UpdateOn(s0, p, side, aim, t, conv);
  }

  /** A time, not before the clock, at which an update flushes. */
  lemma FlushTime(s: State) returns (now: u32)
    ensures Timediff(now, s.clock.current) >= 0 && Flushes(s, now)
  {
    if Flushes(s, s.clock.current) {
      now := s.clock.current;
    } else {
      NotFlushing(s.clock, s.clock.current);
      now := s.clock.flushAt;
    }
  }

  lemma Later(a: u32, x: nat)
    requires x < TWO_31
    ensures Timediff(Add32(a, x), a) == x
  {
  }

  lemma Distance(a: u32, b: u32) returns (d: nat)
    requires Timediff(a, b) < 0
    ensures 0 < d <= TWO_31 && b == Add32(a, d)
  {
    d := (b - a) % TWO_32;
  }

  lemma InTwoSteps(a: u32, x: nat, y: nat)
    ensures Add32(Add32(a, x), y) == Add32(a, x + y)
  {
  }

  /** From `a` to a later `b` in two steps, neither of which goes back. */
  lemma HalfWay(a: u32, b: u32) returns (m: u32)
    requires Timediff(a, b) < 0
    ensures Timediff(m, a) >= 0 && Timediff(b, m) >= 0
  {
    hide Timediff, Add32;
    var d := Distance(a, b);
    m := Add32(a, d / 2);
    InTwoSteps(a, d / 2, d - d / 2);
    Later(a, d / 2);
    Later(m, d - d / 2);
  }

  /** Resend: drain the reader, send the oldest segment, acknowledge it, take the acknowledgement. */
  lemma Resend(s0: System, p: Path, side: Side, conv: u32) returns (q: Path)
    requires Follows(s0, p, conv)
    requires var n := At(p.s, side).st; n.snd.buf != [] || (n.snd.queue != [] && Open(n))
    ensures Follows(s0, q, conv) && WaitSnd(At(q.s, side).st) < WaitSnd(At(p.s, side).st)
    ensures At(q.s, side).sent == At(p.s, side).sent
  {
    hide Pair, PeekSize, WaitSnd, Keeps, Pending, Conclude, Run, AllGood, InputAll, Update, FlushAsync, NodeFlushed,
         EndInv;
    var other := Other(side);
    q := DrainReader(s0, p, other, conv);
    Sides(q, side, conv);
    var a, b := At(q.s, side), At(q.s, other);
    DrainedIsOpen(a, b, conv);
    PairNode(a, b, conv);
    PairParts(a, b, conv);
    var una := a.st.snd.una;
    q := SendOut(s0, q, side, Oldest, conv);
    var a1 := At(q.s, side);
    var d, j := OldestIn(a1);
    q := DeliverTo(s0, q, other, d, conv);
    PushIsAcked(b, a1, Inflow(b.st, false, 0), d, j, una, conv);
    ConcludeLength(InputPackets(b.st, d), b.st.snd.una);
    var b1 := At(q.s, other);
    Sides(q, other, conv);
    PairNode(b1, a1, conv);
    var limit, d2, j2 := AckGoesOut(b1, una, conv);
    q := FlushTo(s0, q, other, limit, conv);
    q := DeliverTo(s0, q, side, d2, conv);
    PairParts(a1, At(q.s, other), conv);
    AckLowers(a1.st, d2, j2, una);
  }

  lemma OldestIn(n: Node) returns (d: Datagram, j: nat)
    requires SentOut(n, Oldest)
    ensures d in n.net && j < |d| && d[j].cmd == CMD_PUSH
    ensures d[j].sn == n.st.snd.una && Keeps(n.st.snd.buf, n.st.snd.una)
  {
    d :| d in n.net && Carries(d, CMD_PUSH, n.st.snd.una);
    j :| 0 <= j < |d| && d[j].cmd == CMD_PUSH && d[j].sn == n.st.snd.una;
  }

  lemma QuestionIn(n: Node) returns (d: Datagram, j: nat)
    requires SentOut(n, Question)
    ensures d in n.net && j < |d| && d[j].cmd == CMD_WASK
  {
    d :| d in n.net && Carries(d, CMD_WASK, n.st.snd.una);
    j :| 0 <= j < |d| && d[j].cmd == CMD_WASK;
  }

  // ---- opening the window ---------------------------------------------------------

  /** A first flush opens the congestion window, and starts the probe timer when the remote window is closed. */
  lemma FirstFlush(n: Node, conv: u32) returns (limit: nat)
    requires NodeInv(n, conv)
    ensures var m := NodeFlushed(n, FlushAsync(n.st, limit));
            && WaitSnd(m.st) == WaitSnd(n.st) && m.sent == n.sent && m.st.rmtWnd == n.st.rmtWnd && m.st.cong.cwnd >= 1
            && (n.st.rmtWnd == 0 ==> m.st.probe.wait > 0)
  {
    var u := n.st.(clock := Touch(n.st.clock, Add32(n.st.clock.current, 10)));
    limit := |FlushPlan(u)| + 1;
    ProbeWaitBound(n, conv);
    hide NodeInv, Flush, FlushPlan, Admission, WaitSnd, Add32, ProbeTimer;
    FlushedSender(n, u, limit, conv);
    ProbeTimerBounded(u.probe, u.rmtWnd, u.clock.current);
  }

  lemma ProbeWaitBound(n: Node, conv: u32)
    requires NodeInv(n, conv)
    ensures n.st.probe.wait <= PROBE_LIMIT
  {
    hide AcksGood, AllGood, NetGood, Accounted, SegmentsGood;
  }

  /** An endpoint that is to tell its window, and has room, sends a datagram whose last packet announces it. */
  lemma WindowGoesOut(n: Node, conv: u32) returns (limit: nat, d: Datagram)
    requires NodeInv(n, conv) && n.st.probe.tell && WndUnused(n.st.rcv, n.st.cfg.rcvWnd) > 0
    ensures var m := NodeFlushed(n, FlushAsync(n.st, limit)); d in m.net && d != [] && d[|d| - 1].wnd > 0
  {
    hide NodeInv, Flush, FlushPlan, Admission, WaitSnd, Add32, WndUnused, AfterAcks;
    var u := n.st.(clock := Touch(n.st.clock, Add32(n.st.clock.current, 10)));
    limit := |FlushPlan(u)| + 1;
    TellStays(u);
    var k := ProbeIsPlanned(u, CMD_WINS);
    FlushedSender(n, u, limit, conv);
    FlushEndsWithPlan(u, limit);
    PlanAnnounces(u, |FlushPlan(u)| - 1);
    var sent := Flush(u, limit).sent;
    d := sent[|sent| - 1];
  }

  lemma TellStays(u: State)
    ensures u.probe.tell ==> AfterAcks(u).probe.tell
  {
    hide Timediff, Add32;
  }

  /** The window exchange: flush, probe when the remote window is closed, hear its size. Nothing that waits
      is added; afterwards the window is open. */
  lemma OpenUp(s0: System, p: Path, side: Side, conv: u32) returns (q: Path)
    requires Follows(s0, p, conv)
    ensures Follows(s0, q, conv) && WaitSnd(At(q.s, side).st) <= WaitSnd(At(p.s, side).st)
    ensures At(q.s, side).sent == At(p.s, side).sent
    ensures Open(At(q.s, side).st)
  {
    hide Pair, PeekSize, WaitSnd, Conclude, Run, AllGood, InputAll, Update, FlushAsync, NodeFlushed, EndInv, WndUnused;
    var other := Other(side);
    Sides(p, side, conv);
    PairNode(At(p.s, side), At(p.s, other), conv);
    var limit := FirstFlush(At(p.s, side), conv);
    q := FlushTo(s0, p, side, limit, conv);
    if At(q.s, side).st.rmtWnd == 0 {
      q := SendOut(s0, q, side, Question, conv);
      var d, j := QuestionIn(At(q.s, side));
      q := Announce(s0, q, side, d, j, conv);
    }
  }

  /** From a probe that was sent to the open window. */
  lemma Announce(s0: System, p: Path, side: Side, d: Datagram, j: nat, conv: u32) returns (q: Path)
    requires Follows(s0, p, conv) && d in At(p.s, side).net && j < |d|
    requires d[j].cmd == CMD_WASK && At(p.s, side).st.cong.cwnd >= 1
    ensures Follows(s0, q, conv) && WaitSnd(At(q.s, side).st) <= WaitSnd(At(p.s, side).st)
    ensures At(q.s, side).sent == At(p.s, side).sent
    ensures Open(At(q.s, side).st)
  {
    hide Pair, PeekSize, WaitSnd, Conclude, Run, AllGood, InputAll, FlushAsync, NodeFlushed, EndInv, WndUnused;
    var other := Other(side);
    var a, b := At(p.s, side), At(p.s, other);
    q := DeliverTo(s0, p, other, d, conv);
    ProbeIsHeard(Inflow(b.st, false, 0), d);
    ConcludeLength(InputPackets(b.st, d), b.st.snd.una);
    q := DrainReader(s0, q, other, conv);
    Sides(q, side, conv);
    Sides(q, other, conv);
    DrainedIsOpen(a, At(q.s, other), conv);
    PairNode(At(q.s, other), a, conv);
    var limit, d2 := WindowGoesOut(At(q.s, other), conv);
    q := FlushTo(s0, q, other, limit, conv);
    q := DeliverTo(s0, q, side, d2, conv);
    var i := Inflow(a.st, false, 0);
    WindowAfterAll(i, d2);
    ProbeIsHeard(i, d2);
    ConcludeLength(InputPackets(a.st, d2), a.st.snd.una);
    PairParts(a, At(q.s, other), conv);
    InputNeverRaises(a.st, d2);
  }

  // ---- the theorems -------------------------------------------------------------

  /** One round: with anything unsent or unacknowledged, there is a continuation that lowers `wait_snd`. */
  lemma OneRound(s0: System, p: Path, side: Side, conv: u32) returns (q: Path)
    requires Follows(s0, p, conv) && WaitSnd(At(p.s, side).st) > 0
    ensures Follows(s0, q, conv) && WaitSnd(At(q.s, side).st) < WaitSnd(At(p.s, side).st)
    ensures At(q.s, side).sent == At(p.s, side).sent
  {
    hide Follows, Open;
    q := OpenUp(s0, p, side, conv);
    if WaitSnd(At(q.s, side).st) == WaitSnd(At(p.s, side).st) {
      q := Resend(s0, q, side, conv);
    }
  }

  lemma {:induction false} AllRounds(s0: System, p: Path, side: Side, conv: u32) returns (q: Path)
    requires Follows(s0, p, conv)
    ensures Follows(s0, q, conv) && WaitSnd(At(q.s, side).st) == 0 && At(q.s, side).sent == At(p.s, side).sent
    decreases WaitSnd(At(p.s, side).st)
  {
    hide Follows;
    q := p;
    if WaitSnd(At(p.s, side).st) > 0 {
      q := OneRound(s0, p, side, conv);
      q := AllRounds(s0, q, side, conv);
    }
  }

  /** With nothing waiting and the reader drained, everything has been returned. */
  lemma NothingWaiting(a: Node, b: Node, conv: u32)
    requires Pair(a, b, conv) && WaitSnd(a.st) == 0 && PeekSize(ChunksOf(b.st.rcv.queue)).Err?
    ensures Flatten(b.got) == Flatten(a.sent)
  {
    PairRuns(a, b, conv);
    QueueYields(a, b, conv);
    CaughtUp(a, b, conv);
    hide Own, SegmentsGood, AcksGood, AllGood, NetGood, NothingLost, Matches, Bytes, Flatten, Framed, MessageChunks,
         Unframed, PeekSize;
    assert b.st.rcv.queue == [];
    assert a.log + a.st.snd.queue == a.log;
    assert a.log[..|a.log|] == a.log;
  }

  /** No reachable state is stuck: after any run, with anything unsent or unacknowledged on one side, there is
      a finite continuation, in which no clock is set back, that strictly lowers what waits there. */
  lemma NeverStuck(s: System, acts: seq<Action>, side: Side, conv: u32) returns (more: seq<Action>)
    requires Begins(s, conv)
    ensures Runnable(s) && OnTime(Run(s, acts), more)
    ensures WaitSnd(At(Run(s, acts), side).st) > 0 ==>
              WaitSnd(At(Run(Run(s, acts), more), side).st) < WaitSnd(At(Run(s, acts), side).st)
  {
    hide Begins, Pair, Run, OnTime, WaitSnd;
    BeginsAsPair(s, conv);
    RunKeeps(s, acts, conv);
    more := LessFromHere(Run(s, acts), side, conv);
  }

  lemma LessFromHere(t: System, side: Side, conv: u32) returns (more: seq<Action>)
    requires Runnable(t) && Pair(t.left, t.right, conv)
    ensures OnTime(t, more)
    ensures WaitSnd(At(t, side).st) > 0 ==> WaitSnd(At(Run(t, more), side).st) < WaitSnd(At(t, side).st)
  {
    hide Pair, WaitSnd;
    more := [];
    if WaitSnd(At(t, side).st) > 0 {
      var q := OneRound(t, Path([], t), side, conv);
      more := q.acts;
    }
  }

  /** Everything can arrive: from every reachable state there is a continuation, in which no clock is set back
      and nothing further is sent on that side, after which nothing waits there and the other side's reader has
      returned exactly all bytes that were ever taken over. */
  lemma EverythingCanArrive(s: System, acts: seq<Action>, side: Side, conv: u32) returns (more: seq<Action>)
    requires Begins(s, conv)
    ensures Runnable(s) && OnTime(Run(s, acts), more)
    ensures var t, u := Run(s, acts), Run(Run(s, acts), more);
            && WaitSnd(At(u, side).st) == 0 && At(u, side).sent == At(t, side).sent
            && Flatten(At(u, Other(side)).got) == Flatten(At(t, side).sent)
  {
    hide Begins, Pair, Run, Flatten, OnTime, WaitSnd;
    BeginsAsPair(s, conv);
    RunKeeps(s, acts, conv);
    more := FromHere(Run(s, acts), side, conv);
  }

  lemma FromHere(t: System, side: Side, conv: u32) returns (more: seq<Action>)
    requires Runnable(t) && Pair(t.left, t.right, conv)
    ensures OnTime(t, more)
    ensures var u := Run(t, more);
            && WaitSnd(At(u, side).st) == 0 && At(u, side).sent == At(t, side).sent
            && Flatten(At(u, Other(side)).got) == Flatten(At(t, side).sent)
  {
    hide Pair, PeekSize, WaitSnd, Flatten;
    var q := AllRounds(t, Path([], t), side, conv);
    var p := q;
    q := DrainReader(t, q, Other(side), conv);
    SameWait(At(p.s, side).st, At(q.s, side).st);
    Sides(q, side, conv);
    NothingWaiting(At(q.s, side), At(q.s, Other(side)), conv);
    more := q.acts;
  }

  lemma SameWait(s: State, t: State)
    ensures s.snd == t.snd ==> WaitSnd(s) == WaitSnd(t)
  {
  }
}
