/** Deadlines: when segments are retransmitted, what `check` promises, and why skipped updates are harmless. */
module Timing {
  import opened Arith
  import opened Wire
  import opened Chunks
  import opened Receiving
  import opened Sending
  import opened Control
  import opened Packing
  import opened Engine
  import opened Endpoint
  import opened Flushing

  // ---- retransmission timers ----------------------------------------------------

  /** A transmitted segment has a positive timeout, which grew by at most the maximum with each transmission. */
  predicate TimerOk(s: Segment) { s.xmit >= 1 ==> 1 <= s.rto <= RTO_MAX * s.xmit }

  ghost predicate TimersOk(buf: seq<Segment>) { forall i | 0 <= i < |buf| :: TimerOk(buf[i]) }

  ghost predicate TimerInv(s: State) {
    s.cfg.minRto >= 1 && 1 <= s.rtt.rto <= RTO_MAX && TimersOk(s.snd.buf)
  }

  /** With fewer transmissions than this, no timeout reaches the sign bit of a difference. */
  const XMIT_LIMIT := 35791

  ghost predicate FewTransmissions(buf: seq<Segment>) { forall i | 0 <= i < |buf| :: buf[i].xmit + 1 < XMIT_LIMIT }

  /** A deadline exactly half the clock's range away counts as ahead when it is compared with the time, and as
      past when the time is compared with it. Only an early retransmission ends this. */
  predicate Stranded(s: Segment, now: u32, resent: u32) {
    s.xmit >= 1 && Timediff(now, s.resendts) == -TWO_31 && s.fastack < resent
  }

  ghost predicate NoneStranded(buf: seq<Segment>, now: u32, resent: u32) {
    forall i | 0 <= i < |buf| :: !Stranded(buf[i], now, resent)
  }

  lemma Ahead(now: u32, d: nat)
    requires 0 < d < TWO_31
    ensures Timediff(now, Add32(now, d)) + d == 0 && Timediff(Add32(now, d), now) == d
  {
  }

  lemma AddTwice(now: u32, a: nat, b: nat)
    ensures Add32(Add32(now, a), b) == Add32(now, a + b)
  {
  }

  /** After the transmission loop has passed a segment, it has been transmitted and is not due. */
  lemma RestampedIsNotDue(e: Round, s: Segment)
    requires 1 <= e.rto <= RTO_MAX && TimerOk(s) && s.xmit + 1 < XMIT_LIMIT
    ensures var s' := Restamped(e, s); s'.xmit >= 1 && TimerOk(s') && Timediff(e.current, s'.resendts) < 0
    ensures var s' := Restamped(e, s);
            Timediff(s'.resendts, e.current) ==
            if Stranded(s, e.current, e.resent) then -TWO_31 else -Timediff(e.current, s'.resendts)
  {
    hide Timediff, Add32;
    var s' := Restamped(e, s);
    assert Add32(s.xmit, 1) == s.xmit + 1 by { SumExact(s.xmit, 1); }
    match DueOf(e, s) {
      case NotDue =>
        HalfRange(e.current, s.resendts);
        if Timediff(e.current, s.resendts) > -TWO_31 {
          Antisymmetric(e.current, s.resendts);
        }
      case First =>
        var extra := if e.nodelay then 0 else e.rto / 8;
        AddTwice(e.current, e.rto, extra);
        Ahead(e.current, e.rto + extra);
      case Timeout =>
        var more := if e.nodelay then e.rto / 2 else e.rto;
        SumExact(s.rto, more);
        Ahead(e.current, s.rto + more);
      case Early =>
        Ahead(e.current, s.rto);
    }
  }

  lemma HalfRange(a: u32, b: u32)
    ensures Timediff(a, b) == -TWO_31 ==> Timediff(b, a) == -TWO_31
  {
  }

  lemma Antisymmetric(a: u32, b: u32)
    requires Timediff(a, b) != -TWO_31
    ensures Timediff(b, a) == -Timediff(a, b)
  {
  }

  ghost predicate AllAhead(buf: seq<Segment>, now: u32) {
    forall i | 0 <= i < |buf| :: buf[i].xmit >= 1 && Timediff(now, buf[i].resendts) < 0
  }

  lemma AdmissionTimers(s: State)
    requires EndInv(s) && SendRoom(s) && TimerInv(s) && FewTransmissions(s.snd.buf)
    ensures TimersOk(Admission(s).buf) && FewTransmissions(Admission(s).buf)
    ensures |s.snd.buf| <= |Admission(s).buf|
    ensures forall i | 0 <= i < |Admission(s).buf| ::
              if i < |s.snd.buf| then Admission(s).buf[i] == s.snd.buf[i] else Admission(s).buf[i].xmit == 0
  {
    hide Admit, RcvInv, Coherent, Size, WndUnused, Timediff;
    WindowFits(s);
    var k, added := AdmitKeeps(s.snd, UsedWindow(s), StampOf(s), s.cfg.sndWnd);
  }

  lemma {:induction false} PassedTimers(e: Round, segs: seq<Segment>, done: seq<Segment>)
    requires 1 <= e.rto <= RTO_MAX && TimersOk(segs) && FewTransmissions(segs) && SomePassed(e, segs, done)
    ensures TimersOk(done)
    ensures AllPassed(e, segs, done) ==> AllAhead(done, e.current)
  {
    hide Restamped, Timediff, TimerOk;
    forall i | 0 <= i < |done|
      ensures TimerOk(done[i])
      ensures AllPassed(e, segs, done) ==> done[i].xmit >= 1 && Timediff(e.current, done[i].resendts) < 0
    {
      assert TimerOk(segs[i]);
      RestampedIsNotDue(e, segs[i]);
    }
  }

  lemma RoundTimer(s: State)
    ensures RoundOf(s).rto == s.rtt.rto && RoundOf(s).current == s.clock.current
  {
  }

  /** A flush keeps the timers in order wherever its sends fail. */
  lemma FlushKeepsTimers(s: State, limit: nat)
    requires EndInv(s) && SendRoom(s) && TimerInv(s) && FewTransmissions(s.snd.buf)
    ensures TimerInv(Flush(s, limit).st)
  {
    hide Flush, EndInv, SendRoom, Admission, RoundOf, TimersOk, FewTransmissions, SomePassed, SameSegments;
    FlushState(s, limit);
    AdmissionTimers(s);
    RoundTimer(s);
    var t := Flush(s, limit).st;
    if t.snd != s.snd {
      PassedTimers(RoundOf(s), Admission(s).buf, t.snd.buf);
    }
  }

  lemma AllIsSome(e: Round, segs: seq<Segment>, done: seq<Segment>)
    requires AllPassed(e, segs, done)
    ensures SomePassed(e, segs, done)
  {
    hide Restamped;
  }

  /** Retransmission deadlines: after a successful flush every kept segment has been transmitted at
      least once and its deadline is still ahead. */
  lemma FlushArmsTimers(s: State, limit: nat)
    requires EndInv(s) && SendRoom(s) && TimerInv(s) && FewTransmissions(s.snd.buf) && s.clock.updated
    requires Flush(s, limit).ok
    ensures var t := Flush(s, limit).st; AllAhead(t.snd.buf, t.clock.current)
  {
    hide Flush, EndInv, SendRoom, Admission, RoundOf, TimersOk, FewTransmissions, SomePassed, AllPassed, AllAhead;
    FlushState(s, limit);
    AdmissionTimers(s);
    RoundTimer(s);
    AllIsSome(RoundOf(s), Admission(s).buf, Flush(s, limit).st.snd.buf);
    PassedTimers(RoundOf(s), Admission(s).buf, Flush(s, limit).st.snd.buf);
  }

  // ---- deadlines, exactly ---------------------------------------------------------

  /** The delay a due segment is given; it grows with every timeout. */
  function Delay(e: Round, s: Segment): u32 {
    match DueOf(e, s)
    case NotDue => 0
    case First => Add32(e.rto, if e.nodelay then 0 else e.rto / 8)
    case Timeout => Add32(s.rto, if e.nodelay then e.rto / 2 else e.rto)
    case Early => s.rto
  }

  predicate DeadlineFits(e: Round, s: Segment) { DueOf(e, s).NotDue? || 0 < Delay(e, s) <= TWO_31 }

  lemma AheadExactly(now: u32, d: u32)
    ensures Timediff(now, Add32(now, d)) < 0 <==> 0 < d <= TWO_31
  {
  }

  lemma AddDelay(now: u32, a: u32, b: u32)
    ensures Add32(Add32(now, a), b) == Add32(now, Add32(a, b))
  {
  }

  /** A segment the loop has passed is not due again exactly when its delay is positive and no more than half
      the range of the clock. */
  lemma DeadlineExactly(e: Round, s: Segment)
    ensures Timediff(e.current, Restamped(e, s).resendts) < 0 <==> DeadlineFits(e, s)
  {
    hide Timediff, Add32;
    AddDelay(e.current, e.rto, if e.nodelay then 0 else e.rto / 8);
    AheadExactly(e.current, Delay(e, s));
  }

  /** After a successful flush all deadlines are ahead if and only if every delay given fits. */
  lemma FlushArmsExactly(s: State, limit: nat)
    requires s.clock.updated && Flush(s, limit).ok
    ensures var t, e, segs := Flush(s, limit).st, RoundOf(s), Admission(s).buf;
            (forall i | 0 <= i < |t.snd.buf| :: Timediff(t.clock.current, t.snd.buf[i].resendts) < 0) <==>
            (forall i | 0 <= i < |segs| :: DeadlineFits(e, segs[i]))
  {
    hide Flush, Admission, Restamped, Timediff, DeadlineFits;
    FlushState(s, limit);
    var t, e, segs := Flush(s, limit).st, RoundOf(s), Admission(s).buf;
    forall i | 0 <= i < |segs|
      ensures Timediff(t.clock.current, t.snd.buf[i].resendts) < 0 <==> DeadlineFits(e, segs[i])
    {
      DeadlineExactly(e, segs[i]);
    }
  }

  // ---- input keeps the timers -----------------------------------------------------

  lemma UpdateAckTimer(r: Rtt, rtt: u32, interval: u32, minRto: u32)
    requires minRto >= 1
    ensures 1 <= UpdateAck(r, rtt, interval, minRto).rto <= RTO_MAX
  {
  }

  lemma TimersSlice(buf: seq<Segment>, k: nat)
    requires TimersOk(buf) && k <= |buf|
    ensures TimersOk(buf[k..])
  {
  }

  lemma TakeHeaderTimers(s: State, p: Packet)
    requires EndInv(s) && TimerInv(s)
    ensures TimerInv(TakeHeader(s, p))
  {
    hide ParseUna, QueueShape, RcvInv, Coherent, Size, TimerOk, Light;
    var k := UnaKeeps(s.snd, p.una, s.cfg.sndWnd, 0);
    TimersSlice(s.snd.buf, k);
  }

  lemma TakeAckTimers(s: State, p: Packet)
    requires EndInv(s) && TimerInv(s)
    ensures TimerInv(TakeAck(s, p))
  {
    hide RemoveSn, QueueShape, RcvInv, Coherent, Size, UpdateAck, InFlight, TimerOk, Timediff, Light;
    var j := AckKeeps(s.snd, p.sn, s.cfg.sndWnd, 0);
    var rtt := Timediff(s.clock.current, p.ts);
    if rtt >= 0 {
      UpdateAckTimer(s.rtt, rtt, s.cfg.interval, s.cfg.minRto);
    }
  }

  lemma TakePushParts(s: State, p: Packet)
    ensures var t := TakePush(s, p); t.cfg == s.cfg && t.rtt == s.rtt && t.snd == s.snd
  {
    hide ParseData, Timediff, Add32;
  }

  lemma InputOneTimers(i: Inflow, p: Packet)
    requires EndInv(i.st) && TimerInv(i.st)
    ensures TimerInv(InputOne(i, p).st)
  {
    hide TakeHeader, TakeAck, TakePush, EndInv, TimersOk, Timediff;
    TakeHeaderTimers(i.st, p);
    TakeHeaderKeeps(i.st, p);
    var s := TakeHeader(i.st, p);
    TakeAckTimers(s, p);
    TakePushParts(s, p);
  }

  lemma {:induction false} InputAllTimers(i: Inflow, ps: seq<Packet>)
    requires EndInv(i.st) && ReceiveRoom(i.st, |ps|) && TimerInv(i.st)
    ensures TimerInv(InputAll(i, ps).st)
  {
    hide InputOne, EndInv, TimerInv;
    if ps != [] {
      InputAllTimers(i, ps[..|ps| - 1]);
      InputAllKeeps(i, ps[..|ps| - 1]);
      InputOneTimers(InputAll(i, ps[..|ps| - 1]), ps[|ps| - 1]);
    }
  }

  /** Whatever arrives, once decoded, the timers of what is still kept stay in order. */
  lemma InputTimers(s: State, b: seq<byte>)
    requires EndInv(s) && ReceiveRoom(s, |b|) && TimerInv(s)
    ensures TimerInv(Input(s, b).st)
  {
    if |b| >= OVERHEAD {
      var r := Parse(b, s.conv, s.inputConv);
      PacketsAreFew(b, s.conv, s.inputConv);
      InputAllTimers(Inflow(s, false, 0), r.packets);
      var i := InputPackets(s, r.packets);
      InputAllConfig(Inflow(s, false, 0), r.packets);
      hide EndInv, Parse, TimerInv, InputPackets, Conclude;
      ConcludeTimers(i.(st := i.st.(conv := r.conv, inputConv := r.inputConv)), s.snd.una, i.st);
    }
  }

  lemma ConcludeTimers(i: Inflow, oldUna: u32, s: State)
    requires i.st.cfg.mss > 0 && TimerInv(s) && i.st.cfg == s.cfg && i.st.rtt == s.rtt && i.st.snd == s.snd
    ensures TimerInv(Conclude(i, oldUna))
  {
    hide BumpFastack, Grow, InFlight;
    BumpFacts(s.snd.buf, i.maxAck);
  }

  // ---- and so does everything else ------------------------------------------------

  lemma InitialTimers(cfg: Config, conv: u32, now: u32)
    requires cfg.minRto >= 1
    ensures TimerInv(Initial(cfg, conv, now))
  {
  }

  lemma SendTimers(s: State, data: seq<byte>)
    requires s.cfg.mss > 0 && TimerInv(s)
    ensures TimerInv(SendData(s, data).st) && SendData(s, data).st.snd.buf == s.snd.buf
  {
    hide Send;
  }

  lemma ReceiveTimers(s: State, size: nat)
    requires TimerInv(s)
    ensures TimerInv(Receive(s, size).st)
  {
    hide Recv;
  }

  lemma FlushAckTimers(s: State, limit: nat)
    requires TimerInv(s) && s.clock.updated
    ensures TimerInv(FlushAck(s, limit).st)
  {
    hide PutAll, AckPackets;
  }

  lemma FlushAsyncTimers(s: State, limit: nat)
    requires EndInv(s) && SendRoom(s) && TimerInv(s) && FewTransmissions(s.snd.buf)
    ensures TimerInv(FlushAsync(s, limit).st)
  {
    hide Flush, EndInv, SendRoom, TimersOk, FewTransmissions;
    var c := Touch(s.clock, Add32(s.clock.current, 10));
    ClockIsFree(s, c);
    FlushKeepsTimers(s.(clock := c), limit);
  }

  lemma UpdateTimers(s: State, now: u32, limit: nat)
    requires EndInv(s) && SendRoom(s) && TimerInv(s) && FewTransmissions(s.snd.buf)
    ensures TimerInv(Update(s, now, limit).st)
  {
    hide Flush, EndInv, SendRoom, TimersOk, FewTransmissions, Slap, Schedule;
    var c := Schedule(Touch(s.clock, now), s.cfg.interval);
    ClockIsFree(s, c);
    FlushKeepsTimers(s.(clock := c), limit);
  }

  lemma IntakeTimers(s: State, key: Option<Key>, b: seq<byte>, decode: bool)
    requires EndInv(s) && ReceiveRoom(s, |b|) && s.cfg.mss > 0 && TimerInv(s)
    ensures TimerInv(Intake(s, key, b, decode).st)
  {
    hide EndInv, Input, Seal, TimersOk;
    if !(decode && |b| < 4) {
      InputTimers(s, if decode then Seal(key, b) else b);
    }
  }

  // ---- check --------------------------------------------------------------------

  lemma {:induction false} PacketWaitFacts(buf: seq<Segment>, now: u32)
    ensures forall i | 0 <= i < |buf| :: PacketWait(buf, now) <= Max(Timediff(buf[i].resendts, now), 0)
    ensures (forall i | 0 <= i < |buf| :: Timediff(buf[i].resendts, now) > 0) ==> PacketWait(buf, now) >= 1
  {
    hide Timediff;
    if buf != [] {
      PacketWaitFacts(buf[1..], now);
      assert forall i | 0 < i < |buf| :: buf[i] == buf[1..][i - 1];
    }
  }

  lemma Before(now: u32, base: u32, d: nat)
    requires 0 <= Timediff(now, base) < TWO_16 && d < TWO_16
    ensures Timediff(now, Add32(base, d)) + d == Timediff(now, base)
  {
  }

  lemma SlapFacts(c: Clock)
    requires Slap(c).0 >= 0
    ensures 0 <= Timediff(c.current, Slap(c).1) < SLAP
  {
  }

  lemma ScheduleIsAhead(c: Clock, interval: u32)
    requires 1 <= interval <= SLAP && Slap(c).0 >= 0
    ensures 0 <= Timediff(c.current, Schedule(c, interval).flushAt) + interval < interval
    ensures Schedule(c, interval).current == c.current && Schedule(c, interval).updated == c.updated
  {
    hide Timediff, Add32, Slap;
    SlapFacts(c);
    Before(c.current, Slap(c).1, interval);
    Ahead(c.current, interval);
  }

  /** Every deadline is ahead when compared with the time, as `check` does. */
  ghost predicate AllPositive(buf: seq<Segment>, now: u32) {
    forall i | 0 <= i < |buf| :: Timediff(buf[i].resendts, now) > 0
  }

  lemma PacketWaitExactly(buf: seq<Segment>, now: u32)
    ensures PacketWait(buf, now) >= 1 <==> AllPositive(buf, now)
  {
    hide Timediff, PacketWait;
    PacketWaitFacts(buf, now);
  }

  lemma CheckFacts(s: State, now: u32)
    requires s.clock.updated && s.clock.current == now && -SLAP <= Timediff(now, s.clock.flushAt) < 0
    requires 1 <= s.cfg.interval && 0 <= Timediff(now, s.clock.flushAt) + s.cfg.interval
    ensures Check(s, now) <= s.cfg.interval && (1 <= Check(s, now) <==> AllPositive(s.snd.buf, now))
    ensures forall i | 0 <= i < |s.snd.buf| :: Check(s, now) <= Max(Timediff(s.snd.buf[i].resendts, now), 0)
  {
    hide PacketWait, AllPositive;
    Antisymmetric(now, s.clock.flushAt);
    PacketWaitFacts(s.snd.buf, now);
    PacketWaitExactly(s.snd.buf, now);
  }

  lemma {:induction false} PacketWaitAttained(buf: seq<Segment>, now: u32) returns (i: nat)
    requires buf != [] && AllPositive(buf, now)
    ensures i < |buf| && PacketWait(buf, now) == Timediff(buf[i].resendts, now)
  {
    hide Timediff;
    i := 0;
    if |buf| > 1 {
      PositiveRest(buf, now);
      var j := PacketWaitAttained(buf[1..], now);
      if Timediff(buf[0].resendts, now) > PacketWait(buf[1..], now) {
        i := j + 1;
      }
    } else {
      assert buf[1..] == [];
    }
  }

  lemma PositiveRest(buf: seq<Segment>, now: u32)
    requires buf != [] && AllPositive(buf, now)
    ensures AllPositive(buf[1..], now)
  {
    hide Timediff;
  }

  /** What may bound the answer of `check`: the interval, the distance to the flush time, and that to each
      kept deadline. */
  ghost predicate IsBound(s: State, now: u32, d: int) {
    d == s.cfg.interval || d == Timediff(s.clock.flushAt, now) ||
    exists i | 0 <= i < |s.snd.buf| :: d == Timediff(s.snd.buf[i].resendts, now)
  }

  /** Before its first update an endpoint is due at once, and so is one whose flush time has come or is more than
      ten seconds away, or with a deadline that has come. Otherwise `check` names the smallest of its bounds. */
  lemma CheckExactly(s: State, now: u32)
    ensures var waits := s.clock.updated && -SLAP <= Timediff(now, s.clock.flushAt) < 0 && AllPositive(s.snd.buf, now);
            if waits then IsBound(s, now, Check(s, now)) && forall d: int :: IsBound(s, now, d) ==> Check(s, now) <= d
            else Check(s, now) == 0
  {
    hide PacketWait, AllPositive, Timediff;
    PacketWaitExactly(s.snd.buf, now);
    PacketWaitFacts(s.snd.buf, now);
    if s.clock.updated && -SLAP <= Timediff(now, s.clock.flushAt) < 0 && AllPositive(s.snd.buf, now) {
      Antisymmetric(now, s.clock.flushAt);
      if s.snd.buf != [] {
        var i := PacketWaitAttained(s.snd.buf, now);
        PositiveAt(s.snd.buf, now);
      } else {
        NoPacketWait(now);
      }
    }
  }

  lemma PositiveAt(buf: seq<Segment>, now: u32)
    requires AllPositive(buf, now)
    ensures forall i | 0 <= i < |buf| :: Timediff(buf[i].resendts, now) > 0
  {
    hide Timediff;
  }

  lemma NoPacketWait(now: u32)
    ensures PacketWait([], now) == TWO_32 - 1
  {
  }

  /** Which deadlines are ahead by both comparisons after the loop has passed all segments. */
  lemma PassedPositive(e: Round, segs: seq<Segment>, done: seq<Segment>)
    requires 1 <= e.rto <= RTO_MAX && TimersOk(segs) && FewTransmissions(segs) && AllPassed(e, segs, done)
    ensures AllPositive(done, e.current) <==> NoneStranded(segs, e.current, e.resent)
  {
    hide Restamped, Timediff, TimerOk, Stranded;
    forall i | 0 <= i < |segs|
      ensures Timediff(done[i].resendts, e.current) > 0 <==> !Stranded(segs[i], e.current, e.resent)
    {
      assert TimerOk(segs[i]);
      RestampedIsNotDue(e, segs[i]);
    }
  }

  lemma AdmissionStranded(s: State, now: u32, resent: u32)
    requires |s.snd.buf| <= |Admission(s).buf|
    requires forall i | 0 <= i < |Admission(s).buf| ::
               if i < |s.snd.buf| then Admission(s).buf[i] == s.snd.buf[i] else Admission(s).buf[i].xmit == 0
    ensures NoneStranded(Admission(s).buf, now, resent) <==> NoneStranded(s.snd.buf, now, resent)
  {
    hide Admission, Timediff;
    forall i | 0 <= i < |s.snd.buf| && NoneStranded(Admission(s).buf, now, resent)
      ensures !Stranded(s.snd.buf[i], now, resent)
    {
      assert Admission(s).buf[i] == s.snd.buf[i];
    }
  }

  lemma FlushPositive(s: State, limit: nat)
    requires EndInv(s) && SendRoom(s) && TimerInv(s) && FewTransmissions(s.snd.buf) && s.clock.updated
    requires Flush(s, limit).ok
    ensures AllPositive(Flush(s, limit).st.snd.buf, s.clock.current) <==>
            NoneStranded(s.snd.buf, s.clock.current, Resent(s.cfg))
  {
    hide Flush, EndInv, SendRoom, Admission, TimersOk, FewTransmissions, AllPassed, AllPositive, NoneStranded,
         WndUnused;
    FlushState(s, limit);
    AdmissionTimers(s);
    AdmissionStranded(s, s.clock.current, Resent(s.cfg));
    PassedPositive(RoundOf(s), Admission(s).buf, Flush(s, limit).st.snd.buf);
  }

  /** After an update that flushes, `check` is no longer than the interval and no later than the earliest
      retransmission; and it names a positive time if and only if no segment was stranded. */
  lemma CheckAfterUpdate(s: State, now: u32, limit: nat)
    requires EndInv(s) && SendRoom(s) && TimerInv(s) && FewTransmissions(s.snd.buf)
    requires 1 <= s.cfg.interval <= SLAP
    requires Slap(Touch(s.clock, now)).0 >= 0 && Update(s, now, limit).ok
    ensures var t := Update(s, now, limit).st;
            && Check(t, now) <= s.cfg.interval
            && (1 <= Check(t, now) <==> NoneStranded(s.snd.buf, now, Resent(s.cfg)))
            && forall i | 0 <= i < |t.snd.buf| :: Check(t, now) <= Max(Timediff(t.snd.buf[i].resendts, now), 0)
  {
    hide Flush, EndInv, SendRoom, Slap, Schedule, Timediff, TimersOk, FewTransmissions, Check, AllPositive,
         NoneStranded;
    var u := s.(clock := Schedule(Touch(s.clock, now), s.cfg.interval));
    ScheduleIsAhead(Touch(s.clock, now), s.cfg.interval);
    ClockIsFree(s, u.clock);
    FlushPositive(u, limit);
    FlushClock(u, limit);
    CheckFacts(Flush(u, limit).st, now);
  }

  lemma FlushClock(s: State, limit: nat)
    ensures Flush(s, limit).st.clock == s.clock && Flush(s, limit).st.cfg == s.cfg
  {
    hide Flush, ReachedData, ProbeTimer;
    FlushState(s, limit);
  }

  lemma ClockIsFree(s: State, c: Clock)
    ensures EndInv(s) ==> EndInv(s.(clock := c))
    ensures SendRoom(s) ==> SendRoom(s.(clock := c))
  {
  }

  // ---- skipped updates ------------------------------------------------------------

  /** What may happen to an endpoint between two updates. */
  datatype Event = Arrive(bytes: seq<byte>) | Submit(data: seq<byte>) | Read(size: nat) | FlushNow(limit: nat)

  function Apply(s: State, e: Event): State
    requires s.cfg.mss > 0
  {
    match e
    case Arrive(b) => Input(s, b).st
    case Submit(d) => SendData(s, d).st
    case Read(n) => Receive(s, n).st
    case FlushNow(limit) => FlushAsync(s, limit).st
  }

  lemma ApplyClock(s: State, e: Event)
    requires s.cfg.mss > 0 && s.clock.updated
    ensures Apply(s, e).cfg == s.cfg && Apply(s, e).clock.updated && Apply(s, e).clock.flushAt == s.clock.flushAt
  {
    hide Send, Flush, Recv, Parse, InputPackets, ParseFastack, Grow;
    match e {
      case Arrive(b) =>
        if |b| >= OVERHEAD {
          InputAllConfig(Inflow(s, false, 0), Parse(b, s.conv, s.inputConv).packets);
          InputPacketsConfig(s, Parse(b, s.conv, s.inputConv).packets);
        }
      case Submit(d) =>
      case Read(n) =>
      case FlushNow(limit) =>
        FlushState(s.(clock := Touch(s.clock, Add32(s.clock.current, 10))), limit);
    }
  }

  lemma InputPacketsConfig(s: State, ps: Datagram)
    ensures InputPackets(s, ps).st.cfg == s.cfg && InputPackets(s, ps).st.clock == s.clock
  {
    InputAllConfig(Inflow(s, false, 0), ps);
  }

  function ApplyAll(s: State, es: seq<Event>): (t: State)
    requires s.cfg.mss > 0 && s.clock.updated
    ensures t.cfg == s.cfg && t.clock.updated && t.clock.flushAt == s.clock.flushAt
  {
    if es == [] then s
    else
      var front := ApplyAll(s, es[..|es| - 1]);
      ApplyClock(front, es[|es| - 1]);
      Apply(front, es[|es| - 1])
  }

  /** Sound skipping. Once `check` has named the next update time `next`, then whatever happens in between,
      an update at a time up to `next` touches nothing but the clock, with one exception: exactly at
      `next`, when that is the flush time itself. */
  lemma SkippingIsSound(s: State, t0: u32, es: seq<Event>, t: u32, limit: nat)
    requires s.cfg.mss > 0 && s.clock.updated && Check(s, t0) >= 1 && t0 <= t <= t0 + Check(s, t0)
    ensures var u := ApplyAll(s, es);
            var flushes := t == t0 + Check(s, t0) && Check(s, t0) == Timediff(s.clock.flushAt, t0);
            if flushes then Update(u, t, limit) ==
              Flush(u.(clock := Schedule(Touch(u.clock, t), u.cfg.interval)), limit)
            else Update(u, t, limit) == Outcome(u.(clock := u.clock.(current := t)), [], true)
  {
    hide PacketWait, Flush, ApplyAll, Schedule;
    Antisymmetric(t0, s.clock.flushAt);
    var d := Timediff(s.clock.flushAt, t0);
    assert Check(s, t0) <= d <= SLAP;
    LaterBy(t0, t, s.clock.flushAt);
  }

  lemma LaterBy(t0: u32, t: u32, f: u32)
    requires -SLAP <= Timediff(t0, f) && t0 <= t && Timediff(t0, f) + (t - t0) <= 0
    ensures Timediff(t, f) == Timediff(t0, f) + (t - t0)
  {
  }
}
