/** One endpoint over its whole life: any operations in any order, and any bytes at all from the network,
    however short, decoded or not. */
module Lifetime {
  import opened Arith
  import opened Wire
  import opened Chunks
  import opened Receiving
  import opened Sending
  import opened Control
  import opened Packing
  import opened Engine
  import opened Endpoint
  import opened Flushing
  import opened Safety
  import T = Timing

  datatype Operation =
    | Arrive(bytes: seq<byte>, key: Option<Key>, decode: bool)
    | Submit(data: seq<byte>)
    | Fetch(size: nat)
    | FlushNow(limit: nat)
    | FlushAcks(limit: nat)
    | Tick(now: u32, limit: nat)

  function Perform(s: State, op: Operation): State
    requires s.cfg.mss > 0
  {
    match op
    case Arrive(b, key, decode) => Intake(s, key, b, decode).st
    case Submit(d) => SendData(s, d).st
    case Fetch(n) => Receive(s, n).st
    case FlushNow(limit) => FlushAsync(s, limit).st
    case FlushAcks(limit) => if s.clock.updated then FlushAck(s, limit).st else s
    case Tick(now, limit) => Update(s, now, limit).st
  }

  lemma PerformConfig(s: State, op: Operation)
    requires s.cfg.mss > 0
    ensures Perform(s, op).cfg == s.cfg
  {
    hide Update, FlushAsync, FlushAck, Intake, Send, Recv;
    match op {
      case Arrive(b, key, decode) => IntakeConfig(s, key, b, decode);
      case Submit(d) =>
      case Fetch(n) =>
      case FlushNow(limit) => FlushedConfig(s, 0, limit);
      case FlushAcks(limit) => FlushedConfig(s, 0, limit);
      case Tick(now, limit) => FlushedConfig(s, now, limit);
    }
  }

  function PerformAll(s: State, ops: seq<Operation>): (t: State)
    requires s.cfg.mss > 0
    ensures t.cfg == s.cfg
  {
    if ops == [] then s
    else
      var front := PerformAll(s, ops[..|ops| - 1]);
      PerformConfig(front, ops[|ops| - 1]);
      Perform(front, ops[|ops| - 1])
  }

  /** The numbers do not run out: before each operation there is room for what it may bring. */
  predicate HasRoom(s: State, op: Operation) { SendRoom(s) && ReceiveRoom(s, if op.Arrive? then |op.bytes| else 0) }

  predicate Roomy(s: State, ops: seq<Operation>)
    requires s.cfg.mss > 0
  {
    ops == [] || (Roomy(s, ops[..|ops| - 1]) && HasRoom(PerformAll(s, ops[..|ops| - 1]), ops[|ops| - 1]))
  }

  lemma PerformKeeps(s: State, op: Operation)
    requires EndInv(s) && s.cfg.mss > 0 && HasRoom(s, op)
    ensures EndInv(Perform(s, op)) && s.snd.una <= Perform(s, op).snd.una && s.rcv.nxt <= Perform(s, op).rcv.nxt
  {
    hide EndInv, Update, FlushAsync, FlushAck, Intake, Receive, SendData;
    match op {
      case Arrive(b, key, decode) => IntakeKeeps(s, key, b, decode);
      case Submit(d) =>
        SendKeeps(s, d);
        SendMovesNothing(s, d);
      case Fetch(n) =>
        ReceiveKeeps(s, n);
        FetchLeavesSender(s, n);
      case FlushNow(limit) =>
        FlushAsyncKeeps(s, limit);
        FlushMovesNothing(s, 0, limit);
      case FlushAcks(limit) =>
        if s.clock.updated {
          FlushAckKeeps(s, limit);
          var k := FlushAckSends(s, limit);
        }
      case Tick(now, limit) =>
        UpdateKeeps(s, now, limit);
        FlushMovesNothing(s, now, limit);
    }
  }

  lemma SendMovesNothing(s: State, d: seq<byte>)
    requires s.cfg.mss > 0
    ensures SendData(s, d).st.snd.una == s.snd.una && SendData(s, d).st.rcv == s.rcv
  {
    hide Send;
  }

  lemma FetchLeavesSender(s: State, n: nat)
    ensures Receive(s, n).st.snd == s.snd
  {
    hide Recv;
  }

  lemma FlushMovesNothing(s: State, now: u32, limit: nat)
    requires EndInv(s) && SendRoom(s)
    ensures Update(s, now, limit).st.snd.una == s.snd.una && Update(s, now, limit).st.rcv == s.rcv
    ensures FlushAsync(s, limit).st.snd.una == s.snd.una && FlushAsync(s, limit).st.rcv == s.rcv
  {
    hide EndInv, Flush, Slap, Schedule, SendRoom;
    FlushLeavesUna(s, Schedule(Touch(s.clock, now), s.cfg.interval), limit);
    FlushLeavesUna(s, Touch(s.clock, Add32(s.clock.current, 10)), limit);
  }

  lemma FlushLeavesUna(s: State, c: Clock, limit: nat)
    requires EndInv(s) && SendRoom(s)
    ensures var t := Flush(s.(clock := c), limit).st; t.snd.una == s.snd.una && t.rcv == s.rcv
  {
    hide Flush, Admit, RcvInv, Coherent, Size, UsedWindow, StampOf, QueueShape, Light, SameSegments;
    var u := s.(clock := c);
    FlushState(u, limit);
    WindowFits(u);
    var k, added := AdmitKeeps(u.snd, UsedWindow(u), StampOf(u), u.cfg.sndWnd);
  }

  lemma {:induction false} PerformAllKeeps(s: State, ops: seq<Operation>)
    requires EndInv(s) && s.cfg.mss > 0 && Roomy(s, ops)
    ensures EndInv(PerformAll(s, ops)) && s.snd.una <= PerformAll(s, ops).snd.una
    ensures s.rcv.nxt <= PerformAll(s, ops).rcv.nxt
  {
    hide EndInv, Perform, HasRoom;
    if ops != [] {
      PerformAllKeeps(s, ops[..|ops| - 1]);
      PerformKeeps(PerformAll(s, ops[..|ops| - 1]), ops[|ops| - 1]);
    }
  }

  /** The receiving side in every reachable state: the buffer is strictly increasing inside the window and
      drained, and queue and announced window add up. */
  ghost predicate ReceiverInOrder(s: State) {
    && Sorted(s.rcv.buf) && Between(s.rcv.buf, s.rcv.nxt, s.rcv.nxt + s.cfg.rcvWnd) && |s.rcv.buf| <= s.cfg.rcvWnd
    && |s.rcv.queue| + WndUnused(s.rcv, s.cfg.rcvWnd) == s.cfg.rcvWnd
    && (s.rcv.buf == [] || s.rcv.buf[0].sn != s.rcv.nxt || |s.rcv.queue| == s.cfg.rcvWnd)
  }

  /** The sending side: the buffer is strictly increasing in `[una, nxt)`, `una` is its first number, and the
      number in flight fits the window and the `u16` it is cast to. */
  ghost predicate SenderInOrder(s: State) {
    && InOrder(s.snd.buf) && Numbers(s.snd.buf, s.snd.una, s.snd.nxt)
    && s.snd.una == (if s.snd.buf == [] then s.snd.nxt else s.snd.buf[0].sn)
    && 0 <= s.snd.nxt - s.snd.una <= s.cfg.sndWnd && Wrap16(Wrap32(s.snd.nxt - s.snd.una)) == s.snd.nxt - s.snd.una
  }

  lemma InOrderOf(s: State)
    requires EndInv(s)
    ensures ReceiverInOrder(s) && SenderInOrder(s)
    ensures s.cfg.mss < TWO_16 ==> s.cong.cwnd == Portion(s.cong.incr, s.cfg.mss) && s.cong.ssthresh >= 2
  {
    SndBounds(s.snd, s.cfg.sndWnd);
    BufferFitsWindow(s.rcv, s.cfg.rcvWnd);
    if s.cfg.mss < TWO_16 {
      CoherentIsQuotient(s.cong, s.cfg.mss);
    }
  }

  lemma SndBounds(s: Sender, wnd: u16)
    requires SndInv(s, wnd)
    ensures 0 <= s.nxt - s.una <= wnd && Wrap16(Wrap32(s.nxt - s.una)) == s.nxt - s.una
  {
  }

  /** Whatever an endpoint is asked to do and whatever arrives, in every reachable state both sides are in
      order, the congestion window is `incr` in whole segments, and the output buffer fits the mtu. */
  lemma AlwaysInOrder(cfg: Config, conv: u32, now: u32, ops: seq<Operation>)
    requires ConfigOk(cfg) && Roomy(Initial(cfg, conv, now), ops)
    ensures var t := PerformAll(Initial(cfg, conv, now), ops);
            && ReceiverInOrder(t) && SenderInOrder(t) && Size(t.buf) <= cfg.mtu
            && (cfg.mss < TWO_16 ==> t.cong.cwnd == Portion(t.cong.incr, cfg.mss) && t.cong.ssthresh >= 2)
  {
    hide Perform, HasRoom;
    InitialInv(cfg, conv, now);
    PerformAllKeeps(Initial(cfg, conv, now), ops);
    InOrderOf(PerformAll(Initial(cfg, conv, now), ops));
  }

  lemma {:induction false} PerformAppend(s: State, a: seq<Operation>, b: seq<Operation>)
    requires s.cfg.mss > 0 && Roomy(s, a + b)
    ensures PerformAll(s, a + b) == PerformAll(PerformAll(s, a), b) && Roomy(s, a) && Roomy(PerformAll(s, a), b)
  {
    hide Perform, HasRoom;
    if b == [] {
      assert a + b == a;
    } else {
      var n := |b| - 1;
      assert (a + b)[..|a| + n] == a + b[..n];
      PerformAppend(s, a, b[..n]);
    }
  }

  /** Neither side's acknowledged number ever goes back. */
  lemma NeverBack(cfg: Config, conv: u32, now: u32, before: seq<Operation>, after: seq<Operation>)
    requires ConfigOk(cfg) && Roomy(Initial(cfg, conv, now), before + after)
    ensures var s := Initial(cfg, conv, now);
            var t, u := PerformAll(s, before), PerformAll(s, before + after);
            t.snd.una <= u.snd.una && t.rcv.nxt <= u.rcv.nxt
  {
    hide Perform, HasRoom;
    var s := Initial(cfg, conv, now);
    InitialInv(cfg, conv, now);
    hide EndInv;
    PerformAppend(s, before, after);
    PerformAllKeeps(s, before);
    PerformAllKeeps(PerformAll(s, before), after);
  }

  // ---- the arithmetic of the congestion window ------------------------------------

  /** In every reachable state, whatever window the remote side announces, the next growth step fits its
      types; and so does what a flush makes of the window after an early retransmission. */
  lemma WindowArithmeticFits(cfg: Config, conv: u32, start: u32, ops: seq<Operation>, rmtWnd: u16)
    requires ConfigOk(cfg) && cfg.mss < TWO_16 && Roomy(Initial(cfg, conv, start), ops)
    ensures var t := PerformAll(Initial(cfg, conv, start), ops); var c, mss := t.cong, cfg.mss;
            c.cwnd < rmtWnd ==>
              && c.cwnd + 1 < TWO_16 && c.incr + mss < TWO_32 && mss * mss < TWO_32 && (c.cwnd + 1) * mss < TWO_32
              && (c.cwnd >= c.ssthresh ==> mss <= c.incr && c.incr + Portion(mss * mss, c.incr) + mss / 16 < TWO_32)
    ensures var t := PerformAll(Initial(cfg, conv, start), ops);
            SendRoom(t) && 0 < cfg.fastresend < 0x8000 ==>
              var inflight := Admission(t).nxt - Admission(t).una;
              var cwnd := Max(inflight / 2, THRESH_MIN) + Resent(cfg);
              0 <= inflight < TWO_16 && 0 < cwnd < TWO_16 && cwnd * cfg.mss < TWO_32
  {
    hide Perform, HasRoom, EndInv, SendRoom, Admission, Portion;
    InitialInv(cfg, conv, start);
    PerformAllKeeps(Initial(cfg, conv, start), ops);
    var t := PerformAll(Initial(cfg, conv, start), ops);
    CoherentNow(t);
    if t.cong.cwnd < rmtWnd {
      GrowFits(t.cong, rmtWnd, cfg.mss);
    }
    if SendRoom(t) && 0 < cfg.fastresend < 0x8000 {
      InFlightFits(t);
      ProductBound(Max((Admission(t).nxt - Admission(t).una) / 2, THRESH_MIN) + Resent(cfg), TWO_16 - 1, cfg.mss,
        TWO_16 - 1);
    }
  }

  lemma CoherentNow(s: State)
    requires EndInv(s) && s.cfg.mss < TWO_16
    ensures s.cfg.mss > 0 && Coherent(s.cong, s.cfg.mss)
  {
  }

  lemma InFlightFits(s: State)
    requires EndInv(s) && SendRoom(s)
    ensures 0 <= Admission(s).nxt - Admission(s).una <= s.cfg.sndWnd < TWO_16
  {
    hide Admit, RcvInv, Coherent, Size, WndUnused, QueueShape, Light;
    WindowFits(s);
    var k, added := AdmitKeeps(s.snd, UsedWindow(s), StampOf(s), s.cfg.sndWnd);
  }

  // ---- deadlines ------------------------------------------------------------------

  /** No segment has been transmitted so often that its delay could pass half the clock's range. */
  ghost predicate Patient(s: State, ops: seq<Operation>)
    requires s.cfg.mss > 0
  {
    T.FewTransmissions(PerformAll(s, ops).snd.buf) && (ops == [] || Patient(s, ops[..|ops| - 1]))
  }

  lemma PerformTimers(s: State, op: Operation)
    requires EndInv(s) && s.cfg.mss > 0 && HasRoom(s, op) && T.TimerInv(s) && T.FewTransmissions(s.snd.buf)
    ensures T.TimerInv(Perform(s, op))
  {
    hide EndInv, Update, FlushAsync, FlushAck, Intake, Receive, SendData, T.TimerInv, T.FewTransmissions;
    match op {
      case Arrive(b, key, decode) => T.IntakeTimers(s, key, b, decode);
      case Submit(d) => T.SendTimers(s, d);
      case Fetch(n) => T.ReceiveTimers(s, n);
      case FlushNow(limit) => T.FlushAsyncTimers(s, limit);
      case FlushAcks(limit) =>
        if s.clock.updated {
          T.FlushAckTimers(s, limit);
        }
      case Tick(now, limit) => T.UpdateTimers(s, now, limit);
    }
  }

  lemma {:induction false} PerformAllTimers(s: State, ops: seq<Operation>)
    requires EndInv(s) && s.cfg.mss > 0 && T.TimerInv(s) && Roomy(s, ops) && Patient(s, ops)
    ensures EndInv(PerformAll(s, ops)) && T.TimerInv(PerformAll(s, ops))
    ensures T.FewTransmissions(PerformAll(s, ops).snd.buf)
  {
    hide EndInv, Perform, HasRoom, T.TimerInv, T.FewTransmissions;
    if ops != [] {
      PerformAllTimers(s, ops[..|ops| - 1]);
      PerformAllKeeps(s, ops);
      PerformTimers(PerformAll(s, ops[..|ops| - 1]), ops[|ops| - 1]);
    }
  }

  /** Retransmission deadlines of a living endpoint: whatever has happened to it, wherever earlier flushes may
      have failed, after a flush that succeeds every kept segment has been sent and its deadline is ahead. */
  lemma DeadlinesAreAhead(cfg: Config, conv: u32, start: u32, ops: seq<Operation>, now: u32, limit: nat)
    requires ConfigOk(cfg) && cfg.minRto >= 1
    requires var s := Initial(cfg, conv, start); Roomy(s, ops) && Patient(s, ops) && SendRoom(PerformAll(s, ops))
    ensures var t := PerformAll(Initial(cfg, conv, start), ops);
            && (var r := Update(t, now, limit);
                Slap(Touch(t.clock, now)).0 >= 0 && r.ok ==> r.st.clock.current == now && T.AllAhead(r.st.snd.buf, now))
            && (var r := FlushAsync(t, limit); r.ok ==> T.AllAhead(r.st.snd.buf, r.st.clock.current))
  {
    hide Perform, HasRoom, EndInv, SendRoom, Flush, Slap, T.TimerInv, T.FewTransmissions, T.AllAhead;
    var s := Initial(cfg, conv, start);
    InitialInv(cfg, conv, start);
    T.InitialTimers(cfg, conv, start);
    PerformAllTimers(s, ops);
    var t := PerformAll(s, ops);
    ArmedAfter(t, Schedule(Touch(t.clock, now), cfg.interval), limit);
    ArmedAfter(t, Touch(t.clock, Add32(t.clock.current, 10)), limit);
  }

  lemma ArmedAfter(s: State, c: Clock, limit: nat)
    requires EndInv(s) && SendRoom(s) && T.TimerInv(s) && T.FewTransmissions(s.snd.buf) && c.updated
    ensures var r := Flush(s.(clock := c), limit);
            r.ok ==> r.st.clock == c && T.AllAhead(r.st.snd.buf, c.current)
  {
    hide EndInv, SendRoom, Flush, T.FewTransmissions, T.AllAhead;
    var u := s.(clock := c);
    T.ClockIsFree(s, c);
    T.FlushClock(u, limit);
    if Flush(u, limit).ok {
      T.FlushArmsTimers(u, limit);
    }
  }

  /** And `check` after an update that flushes: at most the interval, at most the time to every deadline, and
      positive exactly when no kept segment was stranded half the clock's range away. */
  lemma CheckIsTimely(cfg: Config, conv: u32, start: u32, ops: seq<Operation>, now: u32, limit: nat)
    requires ConfigOk(cfg) && cfg.minRto >= 1 && 1 <= cfg.interval <= SLAP
    requires var s := Initial(cfg, conv, start); Roomy(s, ops) && Patient(s, ops) && SendRoom(PerformAll(s, ops))
    requires var t := PerformAll(Initial(cfg, conv, start), ops);
             Slap(Touch(t.clock, now)).0 >= 0 && Update(t, now, limit).ok
    ensures var t := PerformAll(Initial(cfg, conv, start), ops);
            var u := Update(t, now, limit).st;
            && Check(u, now) <= cfg.interval
            && (1 <= Check(u, now) <==> T.NoneStranded(t.snd.buf, now, Resent(cfg)))
            && forall i | 0 <= i < |u.snd.buf| :: Check(u, now) <= Max(Timediff(u.snd.buf[i].resendts, now), 0)
  {
    hide Perform, HasRoom, EndInv, SendRoom, Slap, Update, Check, T.TimerInv, T.FewTransmissions, T.NoneStranded;
    var s := Initial(cfg, conv, start);
    InitialInv(cfg, conv, start);
    T.InitialTimers(cfg, conv, start);
    PerformAllTimers(s, ops);
    T.CheckAfterUpdate(PerformAll(s, ops), now, limit);
  }
}
