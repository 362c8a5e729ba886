/** What one flush does, told from the endpoint before it and the endpoint after it alone. */
module Effects {
  import opened Arith
  import opened Wire
  import opened Chunks
  import opened Receiving
  import opened Sending
  import opened Control
  import opened Packing
  import opened Engine
  import opened Endpoint
  import opened Flushing
  import opened Errors
  import Tr = Traffic

  // ---- which kept segments are sent again -------------------------------------------

  /** The deadline of a segment that has been sent has come. */
  predicate TimedOut(s: State, g: Segment) { g.xmit > 0 && Timediff(s.clock.current, g.resendts) >= 0 }

  /** It has not, but enough later segments have been acknowledged. Without fast resend, that many never are,
      short of the largest counter there is. */
  predicate OvertakenOften(s: State, g: Segment) {
    && g.xmit > 0 && Timediff(s.clock.current, g.resendts) < 0
    && g.fastack >= if s.cfg.fastresend > 0 then s.cfg.fastresend else 0xFFFF_FFFF
  }

  ghost predicate SomeTimedOut(s: State) { exists i | 0 <= i < |s.snd.buf| :: TimedOut(s, s.snd.buf[i]) }

  ghost predicate SomeOvertaken(s: State) { exists i | 0 <= i < |s.snd.buf| :: OvertakenOften(s, s.snd.buf[i]) }

  lemma DueMeans(s: State, g: Segment)
    ensures var d := DueOf(RoundOf(s), g);
            && (d.First? <==> g.xmit == 0) && (d.Timeout? <==> TimedOut(s, g)) && (d.Early? <==> OvertakenOften(s, g))
  {
    hide Timediff, WndUnused;
  }

  /** What is admitted has never been sent. */
  ghost predicate Unsent(segs: seq<Segment>) { forall i | 0 <= i < |segs| :: segs[i].xmit == 0 }

  lemma {:induction false} AdmitAppends(s: Sender, cwnd: u16, h: Stamp) returns (added: seq<Segment>)
    ensures var t := Admit(s, cwnd, h); t.buf == s.buf + added && t.una == s.una && Unsent(added)
    decreases |s.queue|
  {
    hide Timediff, Add32;
    added := [];
    if s.queue != [] && Timediff(s.nxt, Add32(s.una, cwnd)) < 0 {
      var g := Admitted(h, s.nxt, s.queue[0]);
      var more := AdmitAppends(Sender(s.una, Add32(s.nxt, 1), s.queue[1..], s.buf + [g]), cwnd, h);
      added := [g] + more;
      Associative(s.buf, [g], more);
    } else {
      assert s.buf + [] == s.buf;
    }
  }

  lemma AnyDueMeans(s: State)
    ensures AnyDue(RoundOf(s), Admission(s).buf, Timeout) <==> SomeTimedOut(s)
    ensures AnyDue(RoundOf(s), Admission(s).buf, Early) <==> SomeOvertaken(s)
  {
    hide RoundOf, UsedWindow, StampOf, DueOf, TimedOut, OvertakenOften, Admit;
    var added := AdmitAppends(s.snd, UsedWindow(s), StampOf(s));
    var segs, e := Admission(s).buf, RoundOf(s);
    forall i | 0 <= i < |segs|
      ensures DueOf(e, segs[i]).Timeout? <==> i < |s.snd.buf| && TimedOut(s, s.snd.buf[i])
      ensures DueOf(e, segs[i]).Early? <==> i < |s.snd.buf| && OvertakenOften(s, s.snd.buf[i])
    {
      DueMeans(s, segs[i]);
      assert i >= |s.snd.buf| ==> segs[i] == added[i - |s.snd.buf|];
    }
    AnyDueAt(e, segs, Timeout);
    AnyDueAt(e, segs, Early);
  }

  lemma AnyDueAt(e: Round, segs: seq<Segment>, d: Due)
    ensures AnyDue(e, segs, d) ==> exists i | 0 <= i < |segs| :: DueOf(e, segs[i]) == d
    ensures forall i | 0 <= i < |segs| && DueOf(e, segs[i]) == d :: AnyDue(e, segs, d)
  {
  }

  // ---- the congestion window ----------------------------------------------------------

  /** `w` is the smallest of the windows that apply: the endpoint's own, the remote one and, under congestion
      control, the congestion window. */
  predicate IsSmallestWindow(s: State, w: u16) {
    && w <= s.cfg.sndWnd && w <= s.rmtWnd && (!s.cfg.nocwnd ==> w <= s.cong.cwnd)
    && (w == s.cfg.sndWnd || w == s.rmtWnd || (!s.cfg.nocwnd && w == s.cong.cwnd))
  }

  lemma SmallestWindow(s: State, w: u16)
    ensures IsSmallestWindow(s, w) <==> w == UsedWindow(s)
  {
  }

  /** The window after an early resend: `half` of what is in flight is the threshold, and the window is larger by
      the number of acknowledgements that overtook, in sixteen bits and at least one. */
  predicate FromHalf(c: Congestion, half: int, overtaking: int, mss: u32) {
    var cwnd := Mod(half + overtaking, TWO_16);
    c.ssthresh == half && c.cwnd == Max(cwnd, 1) && c.incr == if cwnd == 0 then mss else Mod(cwnd * mss, TWO_32)
  }

  lemma FromHalfExactly(c: Congestion, half: nat, overtaking: nat, mss: u32)
    requires FromHalf(c, half, overtaking, mss) && 0 < half + overtaking < TWO_16 && mss < TWO_16
    ensures c.cwnd == half + overtaking && c.incr == (half + overtaking) * mss && c.ssthresh == half
  {
    hide Mod;
    ProductBound(half + overtaking, TWO_16 - 1, mss, TWO_16 - 1);
    ModSmall(half + overtaking, TWO_16);
    ModSmall((half + overtaking) * mss, TWO_32);
  }

  function Mod(a: int, m: nat): int
    requires m > 0
  {
    a % m
  }

  lemma ModSmall(a: nat, m: nat)
    requires a < m
    ensures Mod(a, m) == a
  {
  }

  lemma SettleExactly(c: Congestion, fast: bool, lost: bool, inflight: u32, resent: u32, used: u16, mss: u32)
    ensures var g := Settle(c, fast, lost, inflight, resent, used, mss);
            && (lost ==> g == Congestion(1, mss, Max(used / 2, 2)))
            && (!lost && fast ==> FromHalf(g, Max(Wrap16(inflight) / 2, 2), Wrap16(resent), mss))
            && (!lost && !fast ==> g == if c.cwnd > 0 then c else c.(cwnd := 1, incr := mss))
  {
  }

  lemma TransmitSettles(s: State, o: Out) returns (tx: Tx)
    requires Transmit(s, o).ok
    ensures tx == Transmission(s, o) && tx.out.ok
    ensures var t := Transmit(s, o).st;
            && t.cong == Settle(s.cong, tx.change > 0, tx.lost, Wrap32(t.snd.nxt - t.snd.una), Resent(s.cfg),
               UsedWindow(s), s.cfg.mss)
            && t.xmit == tx.xmit && t.dead == tx.dead
  {
    hide TxAll, Admit, Settle, UsedWindow, Resent, RoundOf, StampOf;
    tx := Transmission(s, o);
    FinishSticks(tx.out);
  }

  /** What a successful flush reports about its data. */
  lemma FlushReport(s: State, limit: nat) returns (tx: Tx)
    requires s.clock.updated && Flush(s, limit).ok
    ensures var t := Flush(s, limit).st;
            && t.cong == Settle(s.cong, tx.change > 0, tx.lost, Wrap32(t.snd.nxt - t.snd.una), Resent(s.cfg),
               UsedWindow(s), s.cfg.mss)
            && t.xmit == tx.xmit && t.dead == tx.dead
    ensures var e, segs := RoundOf(s), Admission(s).buf;
            && (tx.lost <==> AnyDue(e, segs, Timeout)) && (tx.change > 0 <==> AnyDue(e, segs, Early))
            && (tx.dead <==> s.dead || AnyDying(e, segs)) && tx.xmit == (s.xmit + Timeouts(e, segs)) % TWO_32
  {
    hide Flush, PutAll, Transmit, AckPackets, ProbePackets, Admission, Settle, UsedWindow, RoundOf, TxAll, AnyDue,
         AnyDying, ProbeTimer, Resent;
    FlushCases(s, limit);
    AfterProbesIsSimilar(s);
    var o1 := PutAll(Start(s, limit), AckPackets(s, s.acks), s.cfg.mtu);
    var o2 := PutAll(o1, ProbePackets(s, s.acks, AfterAcks(s).probe), s.cfg.mtu);
    var p := AfterProbes(s);
    tx := TransmitSettles(p, o2);
    TxReport(RoundOf(p), Tx([], o2, false, 0, p.xmit, p.dead), Admission(p).buf);
  }

  /** What a successful flush makes of the congestion window. After a timeout it is one segment, and the
      threshold half the smallest window; else, after an early resend, both follow from half of what is in
      flight; else it stays, or is opened if it was closed. */
  lemma FlushWindow(s: State, limit: nat, w: u16)
    requires s.clock.updated && Flush(s, limit).ok && IsSmallestWindow(s, w)
    ensures var t := Flush(s, limit).st;
            if SomeTimedOut(s) then t.cong == Congestion(1, s.cfg.mss, Max(w / 2, 2))
            else if SomeOvertaken(s) then
              FromHalf(t.cong, Max((t.snd.nxt - t.snd.una) % TWO_16 / 2, 2),
                       if s.cfg.fastresend > 0 then s.cfg.fastresend % TWO_16 else 0xFFFF, s.cfg.mss)
            else t.cong == if s.cong.cwnd > 0 then s.cong else s.cong.(cwnd := 1, incr := s.cfg.mss)
  {
    hide Flush, Settle, UsedWindow, SomeTimedOut, SomeOvertaken, AnyDue, Admission, RoundOf, FromHalf;
    var tx := FlushReport(s, limit);
    AnyDueMeans(s);
    SmallestWindow(s, w);
    var t := Flush(s, limit).st;
    WrapTwice(t.snd.nxt - t.snd.una);
    SettleExactly(s.cong, tx.change > 0, tx.lost, Wrap32(t.snd.nxt - t.snd.una), Resent(s.cfg), w, s.cfg.mss);
  }

  lemma WrapTwice(n: int)
    ensures Wrap16(Wrap32(n)) == n % TWO_16
  {
  }

  /** With fast resend configured in the usual range, in plain numbers. */
  lemma FlushAfterEarlyResend(s: State, limit: nat)
    requires EndInv(s) && SendRoom(s) && s.clock.updated && Flush(s, limit).ok && s.cfg.mss < TWO_16
    requires !SomeTimedOut(s) && SomeOvertaken(s) && 0 < s.cfg.fastresend < 0x8000
    ensures 0 <= Flush(s, limit).st.snd.nxt - Flush(s, limit).st.snd.una < TWO_16
    ensures var t := Flush(s, limit).st;
            var half := Max((t.snd.nxt - t.snd.una) / 2, 2);
            && t.cong.cwnd == half + s.cfg.fastresend && t.cong.incr == (half + s.cfg.fastresend) * s.cfg.mss
            && t.cong.ssthresh == half
  {
    hide Flush, SomeTimedOut, SomeOvertaken, EndInv, SendRoom, FromHalf, IsSmallestWindow, UsedWindow;
    SmallestWindow(s, UsedWindow(s));
    FlushWindow(s, limit, UsedWindow(s));
    FlushKeeps(s, limit);
    FlushedInFlight(s, limit);
    var t := Flush(s, limit).st;
    FromHalfExactly(t.cong, Max((t.snd.nxt - t.snd.una) / 2, 2), s.cfg.fastresend, s.cfg.mss);
  }

  lemma FlushedInFlight(s: State, limit: nat)
    requires EndInv(Flush(s, limit).st)
    ensures var t := Flush(s, limit).st; 0 <= t.snd.nxt - t.snd.una < TWO_16
  {
    hide Flush;
  }

  // ---- what is numbered -----------------------------------------------------------

  /** How much a successful flush numbers: queued segments, from the front, until the smallest window is full
      or the queue is empty; each with the next number and what it has been queued with. */
  lemma FlushAdmits(s: State, limit: nat, w: u16) returns (k: nat)
    requires EndInv(s) && SendRoom(s) && s.clock.updated && Flush(s, limit).ok && IsSmallestWindow(s, w)
    ensures var a, b := s.snd, Flush(s, limit).st.snd;
            && k <= |a.queue| && b.nxt == a.nxt + k && b.una == a.una
            && b.queue == a.queue[k..] && |b.buf| == |a.buf| + k
            && (k < |a.queue| ==> b.nxt - b.una >= w) && (k > 0 ==> b.nxt - b.una <= w)
            && forall i | 0 <= i < k ::
                 var g := b.buf[|a.buf| + i];
                 g.sn == a.nxt + i && g.conv == s.conv && g.cmd == CMD_PUSH && ChunkOfSegment(g) == a.queue[i] &&
                   g.xmit == 1
  {
    hide Flush, Admit, RcvInv, Coherent, Size, UsedWindow, StampOf, QueueShape, Light, RoundOf, Restamped, AfterProbes;
    SmallestWindow(s, w);
    FlushState(s, limit);
    var added;
    k, added := AdmitFacts(s.snd, w, StampOf(s));
    var t := Flush(s, limit).st;
    AllPassedAt(RoundOf(s), Admission(s).buf, t.snd.buf);
    forall i | 0 <= i < k
      ensures var g := t.snd.buf[|s.snd.buf| + i];
              g.sn == s.snd.nxt + i && g.conv == s.conv && g.cmd == CMD_PUSH &&
              ChunkOfSegment(g) == s.snd.queue[i] && g.xmit == 1
    {
      assert Admission(s).buf[|s.snd.buf| + i] == added[i];
      FirstTime(RoundOf(s), added[i]);
      StampConv(s);
    }
  }

  lemma StampConv(s: State)
    ensures StampOf(s).conv == s.conv
  {
  }

  lemma FirstTime(e: Round, g: Segment)
    requires g.xmit == 0
    ensures SameSegment(g, Restamped(e, g)) && Restamped(e, g).xmit == 1
  {
  }

  // ---- what becomes of a segment ----------------------------------------------------

  predicate NeedsSending(s: State, g: Segment) { g.xmit == 0 || TimedOut(s, g) || OvertakenOften(s, g) }

  /** A segment after a flush has passed it. One that is sent carries the time, the announced window and the
      cumulative acknowledgement of this flush, and one transmission more. The first time its timeout is the
      endpoint's, with an eighth more to wait unless in nodelay mode; at a timeout it grows by the endpoint's,
      or half of it in nodelay mode; an early resend only forgets the acknowledgements that overtook. */
  predicate BecomesBy(s: State, g: Segment, h: Segment) {
    var now, rto := s.clock.current, s.rtt.rto;
    if !NeedsSending(s, g) then h == g
    else
      && SameSegment(g, h) && h.ts == now && h.wnd == WndUnused(s.rcv, s.cfg.rcvWnd) && h.una == s.rcv.nxt
      && h.xmit == (g.xmit + 1) % TWO_32
      && if g.xmit == 0 then
           h.rto == rto && h.resendts == (now + rto + (if s.cfg.nodelay then 0 else rto / 8)) % TWO_32 &&
             h.fastack == g.fastack
         else if TimedOut(s, g) then
           && h.rto == (g.rto + (if s.cfg.nodelay then rto / 2 else rto)) % TWO_32
           && h.resendts == (now + h.rto) % TWO_32 && h.fastack == g.fastack
         else h.rto == g.rto && h.resendts == (now + g.rto) % TWO_32 && h.fastack == 0
  }

  lemma AddIs(a: int, b: int)
    ensures Add32(a, b) == (a + b) % TWO_32
  {
  }

  lemma AddThree(a: int, b: int, c: int)
    ensures Add32(Add32(a, b), c) == (a + b + c) % TWO_32
  {
  }

  lemma RestampedBecomes(s: State, g: Segment)
    ensures BecomesBy(s, g, Restamped(RoundOf(s), g))
  {
    hide Timediff, WndUnused, Add32;
    var now, rto, h := s.clock.current, s.rtt.rto, Restamped(RoundOf(s), g);
    AddIs(g.xmit, 1);
    AddIs(g.rto, if s.cfg.nodelay then rto / 2 else rto);
    AddIs(now, h.rto);
    AddIs(now, g.rto);
    AddThree(now, rto, if s.cfg.nodelay then 0 else rto / 8);
  }

  /** Every kept segment after a successful flush, and the new ones behind them. */
  lemma FlushedSegments(s: State, limit: nat, i: nat)
    requires s.clock.updated && Flush(s, limit).ok && i < |Flush(s, limit).st.snd.buf|
    ensures var g := Flush(s, limit).st.snd.buf[i];
            && |s.snd.buf| <= |Flush(s, limit).st.snd.buf|
            && if i < |s.snd.buf| then BecomesBy(s, s.snd.buf[i], g)
               else exists a: Segment :: a.xmit == 0 && BecomesBy(s, a, g)
  {
    hide Flush, RoundOf, UsedWindow, StampOf, Admit, Restamped, BecomesBy, AfterProbes;
    FlushState(s, limit);
    var added := AdmitAppends(s.snd, UsedWindow(s), StampOf(s));
    AllPassedAt(RoundOf(s), Admission(s).buf, Flush(s, limit).st.snd.buf);
    RestampedBecomes(s, Admission(s).buf[i]);
    if i >= |s.snd.buf| {
      assert Admission(s).buf[i] == added[i - |s.snd.buf|];
    }
  }

  // ---- what is put on the wire --------------------------------------------------------

  /** The data of a flush: the segments that need sending and all new ones, as the flush leaves them. */
  function DataSent(s: State, after: seq<Segment>, n: nat): seq<Packet>
    requires n <= |after|
  {
    if n == 0 then []
    else if n - 1 < |s.snd.buf| && !NeedsSending(s, s.snd.buf[n - 1]) then DataSent(s, after, n - 1)
    else DataSent(s, after, n - 1) + [PacketOf(after[n - 1])]
  }

  lemma {:induction false} DataIsSent(s: State, segs: seq<Segment>, after: seq<Segment>, n: nat)
    requires n <= |segs| && |s.snd.buf| <= |segs| && AllPassed(RoundOf(s), segs, after)
    requires forall i | 0 <= i < |segs| :: if i < |s.snd.buf| then segs[i] == s.snd.buf[i] else segs[i].xmit == 0
    ensures |after| == |segs| && DuePackets(RoundOf(s), segs[..n]) == DataSent(s, after, n)
  {
    hide RoundOf, DueOf, Restamped, TimedOut, OvertakenOften;
    AllPassedAt(RoundOf(s), segs, after);
    if n > 0 {
      DataIsSent(s, segs, after, n - 1);
      assert segs[..n][..n - 1] == segs[..n - 1];
      DueMeans(s, segs[n - 1]);
      assert DuePackets(RoundOf(s), segs[..n - 1]) + [] == DuePackets(RoundOf(s), segs[..n - 1]);
    }
  }

  /** Whether the probe timer has run out with the remote window closed. */
  predicate MustAsk(s: State) {
    s.probe.ask || (s.rmtWnd == 0 && s.probe.wait > 0 && Timediff(s.clock.current, s.probe.ts) >= 0)
  }

  /** The plan of a flush in full: one acknowledgement for each pending one, echoing its number and time stamp;
      the question for the remote window, when one is due; the own window, when it was asked for; and the data. */
  lemma PlanInFull(s: State, limit: nat)
    requires s.clock.updated && Flush(s, limit).ok
    ensures var t := Flush(s, limit).st.snd.buf; var wnd := WndUnused(s.rcv, s.cfg.rcvWnd);
            exists acks: seq<Packet>, probes: seq<Packet> ::
              && FlushPlan(s) == acks + probes + DataSent(s, t, |t|)
              && |acks| == |s.acks|
              && (forall i | 0 <= i < |acks| ::
                 acks[i] == Packet(s.conv, CMD_ACK, 0, wnd, s.acks[i].ts, s.acks[i].sn, s.rcv.nxt, []))
              && |probes| == (if MustAsk(s) then 1 else 0) + (if s.probe.tell then 1 else 0)
              && (MustAsk(s) ==> probes[0].cmd == CMD_WASK) && (s.probe.tell ==> probes[|probes| - 1].cmd == CMD_WINS)
              && forall i | 0 <= i < |probes| ::
                   var last := if s.acks == [] then Ack(0, 0) else s.acks[|s.acks| - 1];
                   probes[i] == Packet(s.conv, probes[i].cmd, 0, wnd, last.ts, last.sn, s.rcv.nxt, [])
  {
    hide Flush, RoundOf, UsedWindow, StampOf, Admit, Restamped, DueOf, WndUnused, DataSent, NeedsSending, Timediff,
         Add32;
    FlushState(s, limit);
    var added := AdmitAppends(s.snd, UsedWindow(s), StampOf(s));
    var segs, t := Admission(s).buf, Flush(s, limit).st.snd.buf;
    DataIsSent(s, segs, t, |segs|);
    assert segs[..|segs|] == segs;
    var acks, probes := AckPackets(s, s.acks), ProbePackets(s, s.acks, AfterAcks(s).probe);
    assert FlushPlan(s) == acks + probes + DataSent(s, t, |t|);
  }

  /** Every segment of a plan, data or not, announces the receive window and acknowledges what has been received in
      order; a data segment carries the time of the flush. */
  lemma EverySegmentAnnounces(s: State, j: nat)
    requires j < |FlushPlan(s)|
    ensures var p := FlushPlan(s)[j];
            && p.wnd == WndUnused(s.rcv, s.cfg.rcvWnd) && p.una == s.rcv.nxt
            && (j >= |s.acks| + |ProbePackets(s, s.acks, AfterAcks(s).probe)| ==> p.ts == s.clock.current)
  {
    hide FlushPlan, Admission, RoundOf, DuePackets, DueOf, Restamped, WndUnused;
    PlanParts(s, j);
    RoundIsOf(s);
    var acks, probes := AckPackets(s, s.acks), ProbePackets(s, s.acks, AfterAcks(s).probe);
    if j >= |acks| + |probes| {
      var e, segs := RoundOf(s), Admission(s).buf;
      var i := DueOrigin(e, segs, j - |acks| - |probes|);
      RestampedIsSame(e, segs[i]);
    }
  }

  lemma RoundIsOf(s: State)
    ensures var e := RoundOf(s);
            e.wnd == WndUnused(s.rcv, s.cfg.rcvWnd) && e.una == s.rcv.nxt && e.current == s.clock.current
  {
  }

  /** No datagram is sent while the next segment still fits. */
  lemma FlushIsTight(s: State, limit: nat)
    requires EndInv(s) && SendRoom(s) && s.clock.updated
    ensures Tight(Flush(s, limit).sent, s.cfg.mtu)
  {
    hide PutAll, Flush, FlushPlan, Finish, EndInv, SendRoom, Greedy, Tight;
    FlushOutput(s, limit);
    var o := Start(s, limit);
    PlanIsSmall(s);
    StartIsGreedy(s, limit);
    PutAllIsGreedy(o, FlushPlan(s), s.cfg.mtu);
    FinishIsGreedy(PutAll(o, FlushPlan(s), s.cfg.mtu), s.cfg.mtu);
  }

  lemma StartIsGreedy(s: State, limit: nat)
    ensures Greedy(Start(s, limit), s.cfg.mtu)
  {
  }

  // ---- counters ---------------------------------------------------------------------

  /** How many of the first `n` kept segments have timed out. */
  function TimedOutCount(s: State, n: nat): nat
    requires n <= |s.snd.buf|
  {
    if n == 0 then 0 else TimedOutCount(s, n - 1) + if TimedOut(s, s.snd.buf[n - 1]) then 1 else 0
  }

  lemma {:induction false} TimeoutsCount(s: State, segs: seq<Segment>, n: nat)
    requires n <= |segs| && |s.snd.buf| <= |segs|
    requires forall i | 0 <= i < |segs| :: if i < |s.snd.buf| then segs[i] == s.snd.buf[i] else segs[i].xmit == 0
    ensures Timeouts(RoundOf(s), segs[..n]) == TimedOutCount(s, Min(n, |s.snd.buf|))
  {
    hide RoundOf, DueOf, TimedOut;
    if n > 0 {
      TimeoutsCount(s, segs, n - 1);
      assert segs[..n][..n - 1] == segs[..n - 1];
      DueMeans(s, segs[n - 1]);
    }
  }

  /** Whether segment `i` is sent by the flush. */
  predicate IsSent(s: State, i: nat) { i < |s.snd.buf| ==> NeedsSending(s, s.snd.buf[i]) }

  /** One of those sent has been sent as often as the link allows. */
  ghost predicate SentTooOften(s: State, after: seq<Segment>) {
    exists i | 0 <= i < |after| :: IsSent(s, i) && after[i].xmit >= s.cfg.deadLink
  }

  lemma DyingMeans(s: State, segs: seq<Segment>, after: seq<Segment>)
    requires |s.snd.buf| <= |segs| && AllPassed(RoundOf(s), segs, after)
    requires forall i | 0 <= i < |segs| :: if i < |s.snd.buf| then segs[i] == s.snd.buf[i] else segs[i].xmit == 0
    ensures AnyDying(RoundOf(s), segs) <==> SentTooOften(s, after)
  {
    hide RoundOf, DueOf, Restamped, TimedOut, OvertakenOften;
    var e := RoundOf(s);
    AllPassedAt(e, segs, after);
    RoundDeadLink(s);
    forall i | 0 <= i < |segs| ensures Dying(e, segs[i]) <==> IsSent(s, i) && after[i].xmit >= s.cfg.deadLink {
      DueMeans(s, segs[i]);
    }
    if i :| 0 <= i < |after| && IsSent(s, i) && after[i].xmit >= s.cfg.deadLink {
      assert Dying(e, segs[i]);
    }
  }

  lemma RoundDeadLink(s: State)
    ensures RoundOf(s).deadLink == s.cfg.deadLink
  {
  }

  /** What a successful flush counts: the segments that have timed out, and whether one of those it has sent has
      been sent as often as the link allows. */
  lemma FlushCounts(s: State, limit: nat)
    requires s.clock.updated && Flush(s, limit).ok
    ensures var t := Flush(s, limit).st;
            && t.xmit == (s.xmit + TimedOutCount(s, |s.snd.buf|)) % TWO_32
            && (t.dead <==> s.dead || SentTooOften(s, t.snd.buf))
  {
    hide Flush, RoundOf, UsedWindow, StampOf, Admit, DueOf, AnyDying, AnyDue, Settle, IsSent, AfterProbes;
    var tx := FlushReport(s, limit);
    FlushState(s, limit);
    var added := AdmitAppends(s.snd, UsedWindow(s), StampOf(s));
    var segs := Admission(s).buf;
    TimeoutsCount(s, segs, |segs|);
    assert segs[..|segs|] == segs;
    DyingMeans(s, segs, Flush(s, limit).st.snd.buf);
  }

  // ---- a flush that fails -------------------------------------------------------------

  /** Where a flush has failed, `k` being how much of its plan was put out before: among the acknowledgements,
      which are then all kept; among the probe commands, which are kept too; or in its data. */
  ghost predicate FailsAt(s: State, r: Outcome, k: nat) {
    var acks, probes := |s.acks|, |ProbePackets(s, s.acks, AfterAcks(s).probe)|;
    && k <= |FlushPlan(s)| && Flatten(r.sent) + r.st.buf == s.buf + FlushPlan(s)[..k]
    && if k < acks then r.st == s.(buf := r.st.buf)
       else if k < acks + probes then r.st == AfterAcks(s).(buf := r.st.buf)
       else r.st.acks == [] && !r.st.probe.ask && !r.st.probe.tell && ReachedData(s, r) && PassedSome(s, r.st.snd.buf)
  }

  /** The data part has passed all its segments, or those up to one whose send failed. */
  ghost predicate PassedSome(s: State, after: seq<Segment>) {
    AllPassed(RoundOf(s), Admission(s).buf, after) || exists k :: PassedUpTo(RoundOf(s), Admission(s).buf, after, k)
  }

  lemma SlicesOfPlan(acks: seq<Packet>, probes: seq<Packet>, due: seq<Packet>, k: nat)
    requires k <= |acks| + |probes| + |due|
    ensures var plan := acks + probes + due;
            plan[..k] == if k <= |acks| then acks[..k]
                         else if k <= |acks| + |probes| then acks + probes[..k - |acks|]
                         else acks + probes + due[..k - |acks| - |probes|]
  {
  }

  function AcksOut(s: State, limit: nat): Out { PutAll(Start(s, limit), AckPackets(s, s.acks), s.cfg.mtu) }

  function ProbesOut(s: State, limit: nat): Out {
    PutAll(AcksOut(s, limit), ProbePackets(s, s.acks, AfterAcks(s).probe), s.cfg.mtu)
  }

  lemma FailsInAcks(s: State, limit: nat) returns (k: nat)
    requires s.clock.updated && !AcksOut(s, limit).ok
    ensures FailsAt(s, Flush(s, limit), k)
  {
    hide Flush, PutAll, Transmit, ProbePackets, DuePackets, Admission, RoundOf, AfterAcks, AfterProbes, ReachedData,
         PassedSome;
    FlushCases(s, limit);
    NothingSent(s, limit);
    k := PutAllFacts(Start(s, limit), AckPackets(s, s.acks), s.cfg.mtu);
    SlicesOfPlan(AckPackets(s, s.acks), ProbePackets(s, s.acks, AfterAcks(s).probe),
      DuePackets(RoundOf(s), Admission(s).buf), k);
  }

  lemma FailsInProbes(s: State, limit: nat) returns (k: nat)
    requires s.clock.updated && AcksOut(s, limit).ok && !ProbesOut(s, limit).ok
    ensures FailsAt(s, Flush(s, limit), k)
  {
    hide Flush, PutAll, Transmit, ProbePackets, DuePackets, Admission, RoundOf, AfterAcks, AfterProbes, ReachedData,
         PassedSome;
    FlushCases(s, limit);
    NothingSent(s, limit);
    var acks, probes := AckPackets(s, s.acks), ProbePackets(s, s.acks, AfterAcks(s).probe);
    var k1 := PutAllFacts(Start(s, limit), acks, s.cfg.mtu);
    var k2 := PutAllFacts(AcksOut(s, limit), probes, s.cfg.mtu);
    k := |acks| + k2;
    assert acks[..k1] == acks;
    Associative(s.buf, acks, probes[..k2]);
    SlicesOfPlan(acks, probes, DuePackets(RoundOf(s), Admission(s).buf), k);
  }

  /** What has been put out before the data: everything. */
  lemma ProbesContents(s: State, limit: nat)
    requires ProbesOut(s, limit).ok
    ensures AcksOut(s, limit).ok
    ensures Contents(ProbesOut(s, limit)) == s.buf +
            (AckPackets(s, s.acks) + ProbePackets(s, s.acks, AfterAcks(s).probe))
  {
    hide PutAll, AckPackets, ProbePackets, AfterAcks;
    NothingSent(s, limit);
    var acks, probes := AckPackets(s, s.acks), ProbePackets(s, s.acks, AfterAcks(s).probe);
    var k1 := PutAllFacts(Start(s, limit), acks, s.cfg.mtu);
    var k2 := PutAllFacts(AcksOut(s, limit), probes, s.cfg.mtu);
    assert acks[..k1] == acks && probes[..k2] == probes;
    Associative(s.buf, acks, probes);
  }

  lemma FailsInData(s: State, limit: nat) returns (k: nat)
    requires s.clock.updated && ProbesOut(s, limit).ok
    ensures FailsAt(s, Flush(s, limit), k)
  {
    hide Flush, PutAll, Transmit, ProbePackets, DuePackets, Admission, RoundOf, AfterAcks, AfterProbes, ReachedData,
         PassedSome, Contents;
    FlushCases(s, limit);
    ProbesContents(s, limit);
    var acks, probes := AckPackets(s, s.acks), ProbePackets(s, s.acks, AfterAcks(s).probe);
    var due := DuePackets(RoundOf(s), Admission(s).buf);
    var k3 := DataFails(s, ProbesOut(s, limit));
    k := |acks| + |probes| + k3;
    Associative(s.buf, acks + probes, due[..k3]);
    FailedData(s, ProbesOut(s, limit));
    SlicesOfPlan(acks, probes, due, k);
    assert due[..0] == [] && probes + [] == probes;
  }

  /** Every flush that fails has failed at such a place. */
  lemma FlushFails(s: State, limit: nat) returns (k: nat)
    requires s.clock.updated && !Flush(s, limit).ok
    ensures FailsAt(s, Flush(s, limit), k)
  {
    hide Flush, FailsAt, AcksOut, ProbesOut;
    if !AcksOut(s, limit).ok {
      k := FailsInAcks(s, limit);
    } else if !ProbesOut(s, limit).ok {
      k := FailsInProbes(s, limit);
    } else {
      k := FailsInData(s, limit);
    }
  }

  lemma DataFails(s: State, o: Out) returns (k: nat)
    requires o.ok
    ensures var r, due := Transmit(AfterProbes(s), o), DuePackets(RoundOf(s), Admission(s).buf);
            k <= |due| && Flatten(r.sent) + r.st.buf == Contents(o) + due[..k]
  {
    hide PutAll, Admission, DuePackets, RoundOf, TxAll, Settle, UsedWindow, AfterProbes, Finish;
    AfterProbesIsSimilar(s);
    var t := AfterProbes(s);
    TransmissionFacts(t, o);
    ProbesConfig(s);
    k := PutAllFacts(o, DuePackets(RoundOf(s), Admission(s).buf), s.cfg.mtu);
    FinishFacts(Transmission(t, o).out);
  }

  lemma ProbesConfig(s: State)
    ensures AfterProbes(s).cfg == s.cfg
  {
    hide ProbeTimer;
  }

  lemma DataStops(s: State, o: Out)
    requires o.ok
    ensures PassedSome(s, Transmission(s, o).done)
  {
    hide TxAll, Admission, RoundOf, PassedUpTo, AllPassed;
    var e, t, segs := RoundOf(s), Tx([], o, false, 0, s.xmit, s.dead), Admission(s).buf;
    if TxAll(e, t, segs).out.ok {
      TransmissionFacts(s, o);
    } else {
      var k := TxStops(e, t, segs);
    }
  }

  lemma PassedSomeSimilar(s: State, after: seq<Segment>)
    ensures PassedSome(AfterProbes(s), after) <==> PassedSome(s, after)
  {
    hide Admission, RoundOf, PassedUpTo, AllPassed;
    AfterProbesIsSimilar(s);
  }

  lemma TransmitBuffer(s: State, o: Out)
    ensures Transmit(s, o).st.snd.buf == Transmission(s, o).done
  {
    hide Transmission, Admission, Settle, UsedWindow;
  }

  lemma FailedData(s: State, o: Out)
    requires o.ok
    ensures var r := Transmit(AfterProbes(s), o);
            ReachedData(s, r) && r.st.acks == [] && !r.st.probe.ask && !r.st.probe.tell && PassedSome(s, r.st.snd.buf)
  {
    hide Transmit, ReachedData, ProbeTimer, PassedSome, Transmission;
    DataStops(AfterProbes(s), o);
    TransmitBuffer(AfterProbes(s), o);
    PassedSomeSimilar(s, Transmit(AfterProbes(s), o).st.snd.buf);
    TransmitState(AfterProbes(s), o);
    ReachedDataSimilar(s, Transmit(AfterProbes(s), o));
  }

  // ---- the probe timer ----------------------------------------------------------------

  /** The timer of a window that stays closed, after `n` times of running out at the moment it was set for. */
  function ProbeAfter(now: u32, n: nat): Probe {
    if n == 0 then ProbeTimer(Probe(false, false, 0, 0), 0, now)
    else ProbeTimer(ProbeAfter(now, n - 1).(ask := false), 0, ProbeAfter(now, n - 1).ts)
  }

  /** The delays between the questions: seven seconds, each time half as long again, and two minutes at most. */
  function ProbeDelay(n: nat): u32 {
    var delays := [7000, 10500, 15750, 23625, 35437, 53155, 79732, 119598];
    if n < |delays| then delays[n] else 120000
  }

  lemma NextDelay(n: nat)
    ensures 7000 <= ProbeDelay(n) <= 120000 && ProbeDelay(n + 1) == Min(ProbeDelay(n) + ProbeDelay(n) / 2, 120000)
  {
  }

  lemma ProbeRunsOut(p: Probe)
    requires 7000 <= p.wait <= 120000
    ensures var wait := Min(p.wait + p.wait / 2, 120000);
            ProbeTimer(p, 0, p.ts) == Probe(true, p.tell, (p.ts + wait) % TWO_32, wait)
  {
    hide Timediff, Add32;
    NotLate(p.ts);
    SumExact(p.wait, p.wait / 2);
    AddIs(p.ts, Min(p.wait + p.wait / 2, 120000));
  }

  lemma {:induction false} ProbeBackoff(now: u32, n: nat)
    ensures var p := ProbeAfter(now, n);
            && p.wait == ProbeDelay(n) && p.ask == (n > 0)
            && p.ts == (if n == 0 then now + 7000 else ProbeAfter(now, n - 1).ts + ProbeDelay(n)) % TWO_32
  {
    hide ProbeTimer, ProbeDelay;
    if n == 0 {
      ProbeStarts(now);
    } else {
      ProbeBackoff(now, n - 1);
      NextDelay(n - 1);
      ProbeRunsOut(ProbeAfter(now, n - 1).(ask := false));
    }
  }

  lemma ProbeStarts(now: u32)
    ensures ProbeTimer(Probe(false, false, 0, 0), 0, now) == Probe(false, false, (now + 7000) % TWO_32, 7000)
    ensures ProbeDelay(0) == 7000
  {
  }

  /** Between two questions nothing changes, and an open window stops the timer. */
  lemma ProbeWaits(p: Probe, rmtWnd: u16, current: u32)
    ensures rmtWnd > 0 ==> ProbeTimer(p, rmtWnd, current) == p.(ts := 0, wait := 0)
    ensures rmtWnd == 0 && p.wait > 0 && Timediff(current, p.ts) < 0 ==> ProbeTimer(p, rmtWnd, current) == p
  {
    hide Timediff;
  }

  // ---- the clock ------------------------------------------------------------------------

  /** When an update flushes, and when the next flush is due: one interval after this one was, as long as that
      is within ten seconds and ahead, and one interval from now otherwise. */
  lemma UpdateClock(s: State, now: u32, limit: nat)
    ensures var r := Update(s, now, limit);
            var late := if s.clock.updated then Timediff(now, s.clock.flushAt) else 0;
            var due := if s.clock.updated && -10000 <= late < 10000 then s.clock.flushAt else now;
            var next := (due + s.cfg.interval) % TWO_32;
            if -10000 <= late < 0 then r == Outcome(s.(clock := s.clock.(current := now)), [], true)
            else
              var flushAt := if Timediff(now, next) < 0 then next else (now + s.cfg.interval) % TWO_32;
              r == Flush(s.(clock := Clock(now, flushAt, true)), limit)
  {
    hide Flush, Timediff;
    NotLate(now);
  }

  lemma NotLate(now: u32)
    ensures Timediff(now, now) == 0
  {
  }

  /** A flush outside the schedule moves the clock on by ten, and starts the schedule if there is none. */
  lemma FlushAsyncClock(s: State, limit: nat)
    ensures var now := (s.clock.current + 10) % TWO_32;
            FlushAsync(s, limit) ==
              Flush(s.(clock := Clock(now, if s.clock.updated then s.clock.flushAt else now, true)), limit)
  {
    hide Flush;
  }

  // ---- recv -------------------------------------------------------------------------------

  /** What `recv` answers, from the queue: there is nothing; the front message is not complete; it is larger than
      the buffer; or the message. Only the last changes the endpoint, and when it reopens a full queue the
      window is to be told. */
  lemma ReceiveExactly(s: State, size: nat)
    ensures var r, q := Receive(s, size), s.rcv.queue;
            var m := Bytes(ChunksOf(q)[..MessageEnd(ChunksOf(q))]);
            if q == [] then r == Received(s, Err(RecvQueueEmpty))
            else if q[0].frg > 0 && |q| < (q[0].frg + 1) % 0x100 then r == Received(s, Err(ExpectingFragment))
            else if |m| > size then r == Received(s, Err(UserBufTooSmall(|m|)))
            else
              var reopened := |q| >= s.cfg.rcvWnd && |r.st.rcv.queue| < s.cfg.rcvWnd;
              && r.result == Ok(m) && r.st == s.(rcv := r.st.rcv, probe := r.st.probe)
              && r.st.probe == s.probe.(tell := s.probe.tell || reopened)
  {
    hide Bytes, Drain, MessageEnd;
    PeekSizeIsMessageSize(ChunksOf(s.rcv.queue));
    PeekSizeFails(ChunksOf(s.rcv.queue));
  }

  lemma PeekSizeFails(cs: seq<Chunk>)
    ensures var r := PeekSize(cs);
            if cs == [] then r == Err(RecvQueueEmpty)
            else if cs[0].frg > 0 && |cs| < (cs[0].frg + 1) % 0x100 then r == Err(ExpectingFragment)
            else r.Ok?
  {
    hide Bytes, MessageEnd;
  }

  lemma TellIsKept(s: State)
    ensures s.probe.tell ==> AfterAcks(s).probe.tell
  {
    hide Timediff, Add32;
  }

  /** A `recv` that reopens a full queue is followed up: the next successful flush sends the window, which is open. */
  lemma ReopeningIsTold(s: State, size: nat, limit: nat) returns (j: nat)
    requires var t := Receive(s, size).st;
             Receive(s, size).result.Ok? && |s.rcv.queue| >= s.cfg.rcvWnd && |t.rcv.queue| < s.cfg.rcvWnd
    requires s.clock.updated && Flush(Receive(s, size).st, limit).ok
    ensures var out := Flatten(Flush(Receive(s, size).st, limit).sent);
            j < |out| && out[j].cmd == CMD_WINS && out[j].wnd == s.cfg.rcvWnd - |Receive(s, size).st.rcv.queue| > 0
  {
    hide Flush, FlushPlan, Receive, AfterAcks;
    ReceiveExactly(s, size);
    var t := Receive(s, size).st;
    TellIsKept(t);
    var i := Tr.ProbeIsPlanned(t, CMD_WINS);
    Tr.PlanAnnounces(t, i);
    var k := FlushSends(t, limit);
    j := |t.buf| + i;
    var r, plan := Flush(t, limit), FlushPlan(t);
    assert plan[..k] == plan && Flatten(r.sent) + [] == Flatten(r.sent);
    assert (t.buf + plan)[j] == plan[i];
  }
}
