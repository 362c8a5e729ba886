/** Every step of the two-endpoint system keeps its invariant. */
module Preservation {
  import opened Arith
  import opened Errors
  import opened Wire
  import opened Chunks
  import opened Receiving
  import opened Sending
  import opened Control
  import opened Packing
  import opened Engine
  import opened Endpoint
  import opened Flushing
  import opened Network

  // ---- growth -----------------------------------------------------------------

  ghost predicate Grows(r: Receiver, r': Receiver) { r.nxt <= r'.nxt && forall n: u32 :: Has(r, n) ==> Has(r', n) }

  lemma GoodGrows(ps: seq<Packet>, log: seq<Chunk>, rcv: Receiver, log': seq<Chunk>, rcv': Receiver, conv: u32)
    requires AllGood(ps, log, rcv, conv) && log <= log' && Grows(rcv, rcv')
    ensures AllGood(ps, log', rcv', conv)
  {
    hide Has;
  }

  lemma NetGrows(net: set<Datagram>, log: seq<Chunk>, rcv: Receiver, log': seq<Chunk>, rcv': Receiver, conv: u32)
    requires NetGood(net, log, rcv, conv) && log <= log' && Grows(rcv, rcv')
    ensures NetGood(net, log', rcv', conv)
  {
    forall d | d in net ensures d != [] && AllGood(d, log', rcv', conv) {
      GoodGrows(d, log, rcv, log', rcv', conv);
    }
  }

  lemma AcksGrow(acks: seq<Ack>, rcv: Receiver, rcv': Receiver)
    requires AcksGood(acks, rcv) && Grows(rcv, rcv')
    ensures AcksGood(acks, rcv')
  {
    hide Has;
  }

  lemma NothingLostGrows(buf: seq<Segment>, log: seq<Chunk>, r: Receiver, r': Receiver)
    requires NothingLost(buf, log, r) && Grows(r, r')
    ensures NothingLost(buf, log, r')
  {
    hide Has;
  }

  // ---- send -------------------------------------------------------------------

  lemma SendInv(n: Node, data: seq<byte>, conv: u32)
    requires NodeInv(n, conv)
    ensures NodeInv(NodeSend(n, data), conv)
  {
    if n.st.snd.nxt + |n.st.snd.queue| + FRAGMENT_LIMIT <= SEND_LIMIT {
      hide Send, EndInv, SegmentsGood, AcksGood, AllGood, NetGood, Accounted, Taken;
      var q, mss, stream := n.st.snd.queue, n.st.cfg.mss, n.st.cfg.stream;
      SendKeeps(n.st, data);
      assert QueueShape(q, mss, stream) by { EndInvParts(n.st); }
      SendAccounted(n.log, q, n.sent, data, mss, stream);
    }
  }

  lemma EndInvParts(s: State)
    requires EndInv(s)
    ensures s.cfg.mss > 0 && QueueShape(s.snd.queue, s.cfg.mss, s.cfg.stream) && SndInv(s.snd, s.cfg.sndWnd)
    ensures RcvInv(s.rcv, s.cfg.rcvWnd) && s.cfg.rcvWnd >= WND_RCV
  {
  }

  lemma SendAccounted(log: seq<Chunk>, q: seq<Chunk>, sent: seq<seq<byte>>, data: seq<byte>, mss: nat, stream: bool)
    requires mss > 0 && Accounted(log + q, sent, mss, stream) && QueueShape(q, mss, stream)
    ensures var r := Send(q, data, mss, stream);
            var sent' := if r.result.Ok? || stream then sent + [Taken(q, data, mss, stream)] else sent;
            Accounted(log + r.queue, sent', mss, stream)
  {
    hide Send, Framed, MessageChunks, Taken, QueueShape, Unframed, Bytes, Flatten;
    var r := Send(q, data, mss, stream);
    var t := Taken(q, data, mss, stream);
    SendBytes(q, data, mss, stream);
    SendShape(q, data, mss, stream);
    ShapeUnframed(r.queue, mss, stream);
    UnframedSplit(log, q);
    UnframedSplit(log, r.queue);
    if r.result.Err? && !stream {
      assert r.queue == q;
    } else {
      AccountedBytes(log, q, r.queue, sent, t);
      if !stream {
        FramedSnoc(sent, data, mss);
        TakenAll(q, data, mss);
        assert log + (q + MessageChunks(data, mss)) == log + q + MessageChunks(data, mss);
      }
    }
  }

  lemma ShapeUnframed(q: seq<Chunk>, mss: nat, stream: bool)
    requires QueueShape(q, mss, stream)
    ensures stream ==> Unframed(q)
  {
  }

  lemma UnframedSplit(a: seq<Chunk>, b: seq<Chunk>)
    ensures Unframed(a + b) <==> Unframed(a) && Unframed(b)
  {
    forall i | 0 <= i < |b| && Unframed(a + b) ensures b[i].frg == 0 {
      assert (a + b)[|a| + i] == b[i];
    }
    forall i | 0 <= i < |a| && Unframed(a + b) ensures a[i].frg == 0 {
      assert (a + b)[i] == a[i];
    }
  }

  lemma AccountedBytes(log: seq<Chunk>, q: seq<Chunk>, q': seq<Chunk>, sent: seq<seq<byte>>, t: seq<byte>)
    requires Bytes(log + q) == Flatten(sent) && Bytes(q') == Bytes(q) + t
    ensures Bytes(log + q') == Flatten(sent + [t])
  {
    hide Bytes, Flatten;
    BytesAppend(log, q);
    BytesAppend(log, q');
    FlattenOne(sent, t);
    Associative(Bytes(log), Bytes(q), t);
  }

  lemma TakenAll(q: seq<Chunk>, data: seq<byte>, mss: nat)
    requires mss > 0 && Send(q, data, mss, false).result.Ok?
    ensures Taken(q, data, mss, false) == data
  {
  }

  // ---- recv -------------------------------------------------------------------

  lemma DrainGrows(r: Receiver, r': Receiver, k: nat)
    requires Accepted(r, r', r.buf, k)
    ensures Grows(r, r')
  {
    forall n: u32 | Has(r, n) ensures Has(r', n) {
      HasAfterDrain(r.buf, r.nxt, k, n);
    }
  }

  lemma QueueIsNotHas(r: Receiver, r': Receiver)
    requires r.nxt == r'.nxt && r.buf == r'.buf
    ensures forall n: u32 :: Has(r, n) <==> Has(r', n)
  {
  }

  lemma ReceiveGrows(s: State, size: nat)
    requires EndInv(s) && ReceiveRoom(s, 0)
    ensures Grows(s.rcv, Receive(s, size).st.rcv)
    ensures var t := Receive(s, size).st; t.rcv.nxt + |t.rcv.buf| == s.rcv.nxt + |s.rcv.buf|
  {
    hide Recv, Drain, Has;
    EndInvParts(s);
    hide EndInv;
    if Recv(s.rcv, s.cfg.rcvWnd, size).Ok? {
      var k := RecvFacts(s.rcv, s.cfg.rcvWnd, size);
      var n := MessageEnd(ChunksOf(s.rcv.queue));
      var r := s.rcv.(queue := s.rcv.queue[n..]);
      var r' := Receive(s, size).st.rcv;
      DrainGrows(r, r', k);
      QueueIsNotHas(s.rcv, r);
    }
  }

  lemma RecvInv(n: Node, size: nat, conv: u32)
    requires NodeInv(n, conv)
    ensures NodeInv(NodeRecv(n, size), conv)
  {
    hide EndInv, AcksGood, AllGood, NetGood, Accounted, Receive, Grows, SegmentsGood;
    ReceiveKeeps(n.st, size);
    ReceiveGrows(n.st, size);
    ReceiveParts(n.st, size);
    var r' := Receive(n.st, size).st.rcv;
    AcksGrow(n.st.acks, n.st.rcv, r');
    GoodGrows(n.st.buf, n.log, n.st.rcv, n.log, r', conv);
    NetGrows(n.net, n.log, n.st.rcv, n.log, r', conv);
  }

  lemma ReceiveParts(s: State, size: nat)
    ensures var t := Receive(s, size).st; t == s.(rcv := t.rcv, probe := t.probe)
  {
    hide Recv;
  }

  lemma MatchesDropFront(r: Receiver, n: nat, log: seq<Chunk>)
    requires Matches(r, log) && n <= |r.queue|
    ensures Matches(r.(queue := r.queue[n..]), log)
  {
    assert ChunksOf(r.queue[n..]) == ChunksOf(r.queue)[n..];
  }

  ghost predicate PacketsMatch(ps: seq<Packet>, log: seq<Chunk>) {
    forall i | 0 <= i < |ps| :: ps[i].sn < |log| && log[ps[i].sn] == ChunkOf(ps[i])
  }

  lemma MatchesAccepted(r: Receiver, r': Receiver, m: seq<Packet>, k: nat, log: seq<Chunk>)
    requires Matches(r, log) && Accepted(r, r', m, k) && PacketsMatch(m, log)
    ensures Matches(r', log)
  {
    var lo := r.nxt - |r.queue|;
    if k > 0 {
      assert m[k - 1].sn < |log|;
    }
    assert ChunksOf(m[..k]) == log[r.nxt..r.nxt + k];
    assert ChunksOf(r'.queue) == ChunksOf(r.queue) + ChunksOf(m[..k]);
    assert log[lo..r.nxt + k] == log[lo..r.nxt] + log[r.nxt..r.nxt + k];
  }

  /** Where the messages stand: with the chunks before `front` belonging to the first `g` messages, what is
      queued from there on starts with message `g`, whole or in part. */
  lemma FrontIsNextMessage(all: seq<Chunk>, sent: seq<seq<byte>>, g: nat, cs: seq<Chunk>, mss: nat)
    requires mss > 0 && all == Framed(sent, mss) && g <= |sent| && cs != []
    requires forall i | 0 <= i < |sent| :: MessageChunks(sent[i], mss) != []
    requires var front := |Framed(sent[..g], mss)|; front + |cs| <= |all| && cs == all[front..front + |cs|]
    ensures g < |sent|
    ensures var f := MessageChunks(sent[g], mss);
            if |f| <= |cs| then MessageEnd(cs) == |f| && cs[..|f|] == f && Bytes(f) == sent[g] &&
              PeekSize(cs) == Ok(|sent[g]|)
            else |cs| < FRAGMENT_LIMIT && PeekSize(cs) == Err(ExpectingFragment)
  {
    hide MessageChunks, PeekSize, MessageEnd, Bytes;
    assert sent == sent[..g] + sent[g..];
    FramedAppend(sent[..g], sent[g..], mss);
    var front := |Framed(sent[..g], mss)|;
    var rest := Framed(sent[g..], mss);
    assert cs == rest[..|cs|];
    assert g < |sent|;
    var f := MessageChunks(sent[g], mss);
    assert sent[g..][0] == sent[g];
    assert rest == f + Framed(sent[g..][1..], mss);
    if |f| <= |cs| {
      FrontMessage(sent[g], cs[|f|..], mss);
      assert cs == f + cs[|f|..];
    } else {
      PartialMessage(sent[g], |cs|, mss);
      assert cs == f[..|cs|];
    }
  }

  /** What one successful `recv` adds to what has been delivered. */
  lemma DeliveredStep(a: Node, r: Receiver, got: seq<seq<byte>>, r': Receiver, n: nat, data: seq<byte>)
    requires a.st.cfg.mss > 0 && Accounted(a.log + a.st.snd.queue, a.sent, a.st.cfg.mss, a.st.cfg.stream)
    requires Matches(r, a.log) && Delivered(a.log, a.sent, a.st.cfg, r, got)
    requires n == MessageEnd(ChunksOf(r.queue)) && data == Bytes(ChunksOf(r.queue)[..n])
    requires PeekSize(ChunksOf(r.queue)).Ok?
    requires r.nxt <= r'.nxt <= |a.log| && |r'.queue| == |r.queue| - n + (r'.nxt - r.nxt)
    ensures Delivered(a.log, a.sent, a.st.cfg, r', got + [data])
  {
    hide Bytes, Framed, MessageEnd, PeekSize, Flatten, MessageChunks;
    var cs := ChunksOf(r.queue);
    var front := r.nxt - |r.queue|;
    assert r'.nxt - |r'.queue| == front + n;
    assert a.log[..front + n] == a.log[..front] + cs[..n];
    BytesAppend(a.log[..front], cs[..n]);
    FlattenOne(got, data);
    PeekSizeIsMessageSize(cs);
    if !a.st.cfg.stream {
      BoundaryStep(a, r, got, n, data);
    }
  }

  lemma BoundaryStep(a: Node, r: Receiver, got: seq<seq<byte>>, n: nat, data: seq<byte>)
    requires a.st.cfg.mss > 0 && Accounted(a.log + a.st.snd.queue, a.sent, a.st.cfg.mss, false)
    requires Matches(r, a.log) && r.queue != [] && got <= a.sent && r.nxt - |r.queue| == |Framed(got, a.st.cfg.mss)|
    requires n == MessageEnd(ChunksOf(r.queue)) && data == Bytes(ChunksOf(r.queue)[..n])
    requires PeekSize(ChunksOf(r.queue)).Ok?
    ensures got + [data] <= a.sent && |Framed(got + [data], a.st.cfg.mss)| == r.nxt - |r.queue| + n
  {
    hide Bytes, Framed, MessageEnd, PeekSize, Flatten, MessageChunks;
    var mss := a.st.cfg.mss;
    var cs := ChunksOf(r.queue);
    var all := a.log + a.st.snd.queue;
    var g := |got|;
    assert a.sent[..g] == got;
    assert all[..|a.log|] == a.log;
    assert cs == all[r.nxt - |r.queue|..r.nxt];
    FrontIsNextMessage(all, a.sent, g, cs, mss);
    FramedSnoc(got, data, mss);
  }

  lemma RecvLink(a: Node, b: Node, size: nat, conv: u32)
    requires NodeInv(a, conv) && NodeInv(b, conv) && Link(a, b)
    ensures Link(a, NodeRecv(b, size))
  {
    hide EndInv, AcksGood, AllGood, NetGood, SegmentsGood, Matches, Delivered, NothingLost, Accounted, Grows, Recv;
    ReceiveGrows(b.st, size);
    NothingLostGrows(a.st.snd.buf, a.log, b.st.rcv, Receive(b.st, size).st.rcv);
    if Recv(b.st.rcv, b.st.cfg.rcvWnd, size).Ok? {
      RecvLinkOk(a, b, size, conv);
    }
  }

  lemma RecvLinkOk(a: Node, b: Node, size: nat, conv: u32)
    requires NodeInv(a, conv) && NodeInv(b, conv) && Link(a, b) && Recv(b.st.rcv, b.st.cfg.rcvWnd, size).Ok?
    ensures var r' := NodeRecv(b, size).st.rcv;
            Matches(r', a.log) && Delivered(a.log, a.sent, a.st.cfg, r', NodeRecv(b, size).got)
  {
    hide AcksGood, AllGood, NetGood, SegmentsGood, Delivered, NothingLost, Accounted, Recv, MessageEnd, PeekSize, Bytes;
    EndInvParts(b.st);
    hide EndInv;
    var r, wnd := b.st.rcv, b.st.cfg.rcvWnd;
    var k := RecvFacts(r, wnd, size);
    RecvParts(r, wnd, size);
    var n := MessageEnd(ChunksOf(r.queue));
    MatchesDropFront(r, n, a.log);
    var r' := NodeRecv(b, size).st.rcv;
    MatchesAccepted(r.(queue := r.queue[n..]), r', r.buf, k, a.log);
    DeliveredStep(a, r, b.got, r', n, Bytes(ChunksOf(r.queue)[..n]));
  }

  lemma RecvParts(r: Receiver, wnd: u16, size: nat)
    requires Recv(r, wnd, size).Ok?
    ensures PeekSize(ChunksOf(r.queue)).Ok?
    ensures Recv(r, wnd, size).value.data == Bytes(ChunksOf(r.queue)[..MessageEnd(ChunksOf(r.queue))])
  {
    hide PeekSize, MessageEnd, Bytes, Drain;
  }

  // ---- flush ------------------------------------------------------------------

  lemma AcksPacketsGood(s: State, log: seq<Chunk>)
    requires AcksGood(s.acks, s.rcv)
    ensures AllGood(AckPackets(s, s.acks), log, s.rcv, s.conv)
  {
    hide Has;
  }

  lemma ProbePacketsGood(s: State, probe: Probe, log: seq<Chunk>)
    ensures AllGood(ProbePackets(s, s.acks, probe), log, s.rcv, s.conv)
  {
  }

  lemma AdmissionGood(n: Node, conv: u32) returns (k: nat)
    requires NodeInv(n, conv)
    ensures k <= |n.st.snd.queue| && Admission(n.st).queue == n.st.snd.queue[k..]
    ensures Admission(n.st).nxt == n.st.snd.nxt + k && Admission(n.st).una == n.st.snd.una
    ensures SegmentsGood(Admission(n.st).buf, n.log + n.st.snd.queue[..k], conv)
    ensures forall sn: u32 | Keeps(n.st.snd.buf, sn) || n.st.snd.nxt <= sn < n.st.snd.nxt + k ::
            Keeps(Admission(n.st).buf, sn)
  {
    hide Admit, AcksGood, AllGood, NetGood, Accounted, WndUnused, UsedWindow;
    EndInvParts(n.st);
    hide EndInv;
    WindowFits(n.st);
    var added;
    k, added := AdmitKeeps(n.st.snd, UsedWindow(n.st), StampOf(n.st), n.st.cfg.sndWnd);
    KeptAfterAdmission(n.st.snd.buf, added, n.st.snd.nxt, k);
  }

  lemma KeptAfterAdmission(buf: seq<Segment>, added: seq<Segment>, nxt: nat, k: nat)
    requires |added| == k && forall i | 0 <= i < k :: added[i].sn == nxt + i
    ensures forall sn: u32 | Keeps(buf, sn) || nxt <= sn < nxt + k :: Keeps(buf + added, sn)
  {
    forall sn: u32 | Keeps(buf, sn) || nxt <= sn < nxt + k ensures Keeps(buf + added, sn) {
      if Keeps(buf, sn) {
        var i :| 0 <= i < |buf| && buf[i].sn == sn;
        assert (buf + added)[i].sn == sn;
      } else {
        assert (buf + added)[|buf| + (sn - nxt)].sn == sn;
      }
    }
  }

  lemma DueGood(e: Round, segs: seq<Segment>, log: seq<Chunk>, rcv: Receiver, conv: u32, mss: u32)
    requires SegmentsGood(segs, log, conv) && Light(segs, mss) && e.una == rcv.nxt
    ensures AllGood(DuePackets(e, segs), log, rcv, conv)
  {
    hide Has, Restamped, DueOf;
    forall j | 0 <= j < |DuePackets(e, segs)| ensures Good(DuePackets(e, segs)[j], log, rcv, conv) {
      var i := DueOrigin(e, segs, j);
      RestampedIsSame(e, segs[i]);
    }
  }

  lemma AllGoodAppend(ps: seq<Packet>, qs: seq<Packet>, log: seq<Chunk>, rcv: Receiver, conv: u32)
    ensures AllGood(ps + qs, log, rcv, conv) <==> AllGood(ps, log, rcv, conv) && AllGood(qs, log, rcv, conv)
  {
    hide Good;
    forall i | 0 <= i < |qs| && AllGood(ps + qs, log, rcv, conv) ensures Good(qs[i], log, rcv, conv) {
      assert (ps + qs)[|ps| + i] == qs[i];
    }
    forall i | 0 <= i < |ps| && AllGood(ps + qs, log, rcv, conv) ensures Good(ps[i], log, rcv, conv) {
      assert (ps + qs)[i] == ps[i];
    }
  }

  lemma PlanGood(n: Node, k: nat, conv: u32)
    requires NodeInv(n, conv) && k <= |n.st.snd.queue|
    requires SegmentsGood(Admission(n.st).buf, n.log + n.st.snd.queue[..k], conv)
    ensures AllGood(FlushPlan(n.st), n.log + n.st.snd.queue[..k], n.st.rcv, conv)
  {
    hide AllGood, NetGood, Accounted, Admission, RoundOf, AckPackets, ProbePackets, DuePackets, SegmentsGood, AcksGood;
    var s, log := n.st, n.log + n.st.snd.queue[..k];
    AcksPacketsGood(s, log);
    ProbePacketsGood(s, AfterAcks(s).probe, log);
    AdmissionIsLight(s);
    hide EndInv;
    RoundUna(s);
    DueGood(RoundOf(s), Admission(s).buf, log, s.rcv, conv, s.cfg.mss);
    AllGoodAppend(AckPackets(s, s.acks), ProbePackets(s, s.acks, AfterAcks(s).probe), log, s.rcv, conv);
    AllGoodAppend(AckPackets(s, s.acks) + ProbePackets(s, s.acks, AfterAcks(s).probe),
      DuePackets(RoundOf(s), Admission(s).buf), log, s.rcv, conv);
  }

  lemma RoundUna(s: State)
    ensures RoundOf(s).una == s.rcv.nxt
  {
  }

  lemma {:induction false} FlattenGood(ds: seq<Datagram>, log: seq<Chunk>, rcv: Receiver, conv: u32)
    requires AllGood(Flatten(ds), log, rcv, conv)
    ensures forall i | 0 <= i < |ds| :: AllGood(ds[i], log, rcv, conv)
  {
    hide AllGood;
    if ds != [] {
      AllGoodAppend(ds[0], Flatten(ds[1..]), log, rcv, conv);
      FlattenGood(ds[1..], log, rcv, conv);
    }
  }

  lemma AllGoodPrefix(ps: seq<Packet>, m: nat, log: seq<Chunk>, rcv: Receiver, conv: u32)
    requires AllGood(ps, log, rcv, conv) && m <= |ps|
    ensures AllGood(ps[..m], log, rcv, conv)
  {
    hide Good;
  }

  /** What went out and what stayed in the buffer is good, if the buffer and the plan were. */
  lemma SentGood(ds: seq<Datagram>, rest: Datagram, before: Datagram, plan: seq<Packet>, m: nat,
                 log: seq<Chunk>, rcv: Receiver, conv: u32)
    requires m <= |plan| && Flatten(ds) + rest == before + plan[..m]
    requires AllGood(before, log, rcv, conv) && AllGood(plan, log, rcv, conv)
    ensures AllGood(rest, log, rcv, conv) && forall i | 0 <= i < |ds| :: AllGood(ds[i], log, rcv, conv)
  {
    hide AllGood, Flatten;
    AllGoodPrefix(plan, m, log, rcv, conv);
    AllGoodAppend(before, plan[..m], log, rcv, conv);
    AllGoodAppend(Flatten(ds), rest, log, rcv, conv);
    FlattenGood(ds, log, rcv, conv);
  }

  lemma NetAdd(net: set<Datagram>, ds: seq<Datagram>, log: seq<Chunk>, rcv: Receiver, conv: u32)
    requires NetGood(net, log, rcv, conv) && forall i | 0 <= i < |ds| :: ds[i] != [] && AllGood(ds[i], log, rcv, conv)
    ensures NetGood(net + (set i | 0 <= i < |ds| :: ds[i]), log, rcv, conv)
  {
    hide AllGood;
  }

  lemma GrowsItself(r: Receiver)
    ensures Grows(r, r)
  {
  }

  lemma SameSegmentsGood(a: seq<Segment>, b: seq<Segment>, log: seq<Chunk>, conv: u32)
    requires SegmentsGood(a, log, conv) && SameSegments(a, b)
    ensures SegmentsGood(b, log, conv) && forall sn: u32 | Keeps(a, sn) :: Keeps(b, sn)
  {
    forall sn: u32 | Keeps(a, sn) ensures Keeps(b, sn) {
      var i :| 0 <= i < |a| && a[i].sn == sn;
      assert SameSegment(a[i], b[i]);
    }
  }

  /** The outcome of a flush, with its history: every packet that is new anywhere is good with respect to
      the extended log, and every number that was kept, or is newly given, is kept. */
  ghost predicate FlushedWell(n: Node, m: Node, conv: u32) {
    && m.st.rcv == n.st.rcv && m.got == n.got && m.sent == n.sent && m.st.cfg == n.st.cfg
    && n.log <= m.log && m.log + m.st.snd.queue == n.log + n.st.snd.queue
    && forall sn: u32 | Keeps(n.st.snd.buf, sn) || |n.log| <= sn < |m.log| :: Keeps(m.st.snd.buf, sn)
  }

  lemma FlushedLog(n: Node, r: Outcome, k: nat, conv: u32) returns (j: nat)
    requires NodeInv(n, conv) && Flushed(n.st, r)
    requires k <= |n.st.snd.queue| && Admission(n.st).queue == n.st.snd.queue[k..]
    requires Admission(n.st).nxt == n.st.snd.nxt + k
    requires SegmentsGood(Admission(n.st).buf, n.log + n.st.snd.queue[..k], conv)
    requires forall sn: u32 | Keeps(n.st.snd.buf, sn) || n.st.snd.nxt <= sn < n.st.snd.nxt + k ::
             Keeps(Admission(n.st).buf, sn)
    ensures j <= k && (j == k || !ReachedData(n.st, r))
    ensures var m := NodeFlushed(n, r);
            && m.log == n.log + n.st.snd.queue[..j] && FlushedWell(n, m, conv)
            && SegmentsGood(m.st.snd.buf, m.log, conv)
            && m.st.snd.nxt == |m.log|
  {
    hide EndInv, AcksGood, AllGood, NetGood, Accounted, Admission, Keeps;
    var m := NodeFlushed(n, r);
    assert n.log + n.st.snd.queue[..0] == n.log;
    if r.st.snd == n.st.snd {
      j := 0;
    } else {
      j := k;
      SameSegmentsGood(Admission(n.st).buf, r.st.snd.buf, m.log, conv);
      assert n.log + n.st.snd.queue[..k] + n.st.snd.queue[k..] == n.log + n.st.snd.queue;
    }
  }

  lemma FlushBuffersGood(n: Node, limit: nat, k: nat, j: nat, conv: u32)
    requires NodeInv(n, conv) && n.st.clock.updated && k <= |n.st.snd.queue| && j <= k
    requires SegmentsGood(Admission(n.st).buf, n.log + n.st.snd.queue[..k], conv)
    requires j == k || !ReachedData(n.st, Flush(n.st, limit))
    ensures var r, log := Flush(n.st, limit), n.log + n.st.snd.queue[..j];
            && AllGood(r.st.buf, log, n.st.rcv, conv)
            && forall i | 0 <= i < |r.sent| :: AllGood(r.sent[i], log, n.st.rcv, conv)
  {
    hide EndInv, AcksGood, AllGood, NetGood, Accounted, Admission, Flush, SegmentsGood, AckPackets, ProbePackets,
         DuePackets, RoundOf, ReachedData, Flatten, Grows;
    var s, r, log := n.st, Flush(n.st, limit), n.log + n.st.snd.queue[..j];
    var m := FlushSends(s, limit);
    GrowsItself(s.rcv);
    GoodGrows(s.buf, n.log, s.rcv, log, s.rcv, conv);
    if j == k {
      PlanGood(n, k, conv);
      hide FlushPlan;
      SentGood(r.sent, r.st.buf, s.buf, FlushPlan(s), m, log, s.rcv, conv);
    } else {
      FlushWithoutData(s, limit);
      var acks, probes := AckPackets(s, s.acks), ProbePackets(s, s.acks, AfterAcks(s).probe);
      AcksPacketsGood(s, log);
      ProbePacketsGood(s, AfterAcks(s).probe, log);
      AllGoodAppend(acks, probes, log, s.rcv, conv);
      assert FlushPlan(s)[..m] == (acks + probes)[..m];
      SentGood(r.sent, r.st.buf, s.buf, acks + probes, m, log, s.rcv, conv);
    }
  }

  lemma FlushNet(n: Node, limit: nat, k: nat, j: nat, conv: u32)
    requires NodeInv(n, conv) && k <= |n.st.snd.queue| && j <= k
    requires SegmentsGood(Admission(n.st).buf, n.log + n.st.snd.queue[..k], conv)
    requires j == k || !ReachedData(n.st, Flush(n.st, limit))
    requires NodeFlushed(n, Flush(n.st, limit)).log == n.log + n.st.snd.queue[..j]
    ensures var m := NodeFlushed(n, Flush(n.st, limit));
            AllGood(m.st.buf, m.log, n.st.rcv, conv) && NetGood(m.net, m.log, n.st.rcv, conv)
  {
    hide EndInv, AcksGood, AllGood, NetGood, Accounted, Admission, SegmentsGood, ReachedData, Grows;
    var m := NodeFlushed(n, Flush(n.st, limit));
    GrowsItself(n.st.rcv);
    NetGrows(n.net, n.log, n.st.rcv, m.log, n.st.rcv, conv);
    FlushPacks(n.st, limit);
    if n.st.clock.updated {
      hide Flush;
      FlushBuffersGood(n, limit, k, j, conv);
      NetAdd(n.net, Flush(n.st, limit).sent, m.log, n.st.rcv, conv);
    } else {
      GoodGrows(n.st.buf, n.log, n.st.rcv, m.log, n.st.rcv, conv);
      NetAdd(n.net, [], m.log, n.st.rcv, conv);
    }
  }

  /** A flush, successful or not, on a node in order. */
  lemma FlushNode(n: Node, limit: nat, conv: u32)
    requires NodeInv(n, conv)
    ensures var m := NodeFlushed(n, Flush(n.st, limit)); NodeInv(m, conv) && FlushedWell(n, m, conv)
  {
    hide EndInv, AcksGood, AllGood, NetGood, Accounted, Admission, Flush, SegmentsGood, FlushPlan;
    var s, r := n.st, Flush(n.st, limit);
    var m := NodeFlushed(n, r);
    var k := AdmissionGood(n, conv);
    FlushState(s, limit);
    FlushKeeps(s, limit);
    var j := FlushedLog(n, r, k, conv);
    FlushNet(n, limit, k, j, conv);
    AcksStayGood(s.acks, r.st.acks, s.rcv);
  }

  lemma AcksStayGood(a: seq<Ack>, b: seq<Ack>, rcv: Receiver)
    requires AcksGood(a, rcv) && (b == a || b == [])
    ensures AcksGood(b, rcv)
  {
  }

  /** Setting the clock concerns nothing in the invariant. */
  lemma ClockNode(n: Node, c: Clock, conv: u32)
    requires NodeInv(n, conv)
    ensures NodeInv(n.(st := n.st.(clock := c)), conv)
  {
    hide AcksGood, AllGood, NetGood, Accounted, SegmentsGood, SndInv, RcvInv, QueueShape, Light, Coherent, Size;
  }

  lemma FlushClockNode(n: Node, c: Clock, limit: nat, conv: u32)
    requires NodeInv(n, conv)
    ensures var m := NodeFlushed(n, Flush(n.st.(clock := c), limit)); NodeInv(m, conv) && FlushedWell(n, m, conv)
  {
    hide NodeInv, Flush;
    var n' := n.(st := n.st.(clock := c));
    ClockNode(n, c, conv);
    FlushNode(n', limit, conv);
  }

  lemma TickNode(n: Node, c: Clock, conv: u32)
    requires NodeInv(n, conv)
    ensures var m := NodeFlushed(n, Outcome(n.st.(clock := c), [], true)); NodeInv(m, conv) && FlushedWell(n, m, conv)
  {
    ClockNode(n, c, conv);
    hide NodeInv, Keeps;
    assert NodeFlushed(n, Outcome(n.st.(clock := c), [], true)).net == n.net;
  }

  lemma UpdateNode(n: Node, now: u32, limit: nat, conv: u32)
    requires NodeInv(n, conv)
    ensures var m := NodeFlushed(n, Update(n.st, now, limit)); NodeInv(m, conv) && FlushedWell(n, m, conv)
  {
    hide NodeInv, Flush, FlushedWell, NodeFlushed, Slap, Schedule;
    var c := Touch(n.st.clock, now);
    FlushClockNode(n, Schedule(c, n.st.cfg.interval), limit, conv);
    TickNode(n, c, conv);
  }

  lemma FlushAsyncNode(n: Node, limit: nat, conv: u32)
    requires NodeInv(n, conv)
    ensures var m := NodeFlushed(n, FlushAsync(n.st, limit)); NodeInv(m, conv) && FlushedWell(n, m, conv)
  {
    hide NodeInv, Flush, FlushedWell, NodeFlushed;
    FlushClockNode(n, Touch(n.st.clock, Add32(n.st.clock.current, 10)), limit, conv);
  }

  lemma FlushAckNode(n: Node, limit: nat, conv: u32)
    requires NodeInv(n, conv) && n.st.clock.updated
    ensures var m := NodeFlushed(n, FlushAck(n.st, limit)); NodeInv(m, conv) && FlushedWell(n, m, conv)
  {
    hide EndInv, AcksGood, AllGood, NetGood, Accounted, SegmentsGood, AckPackets, Flatten, FlushAck, Keeps;
    var s, r := n.st, FlushAck(n.st, limit);
    FlushAckKeeps(s, limit);
    var k := FlushAckSends(s, limit);
    AcksPacketsGood(s, n.log);
    SentGood(r.sent, r.st.buf, s.buf, AckPackets(s, s.acks), k, n.log, s.rcv, conv);
    AckDatagramsNonEmpty(s, limit);
    NetAdd(n.net, r.sent, n.log, s.rcv, conv);
    AcksStayGood(s.acks, r.st.acks, s.rcv);
  }

  lemma AckDatagramsNonEmpty(s: State, limit: nat)
    requires EndInv(s) && s.clock.updated
    ensures forall i | 0 <= i < |FlushAck(s, limit).sent| :: FlushAck(s, limit).sent[i] != []
  {
    hide PutAll, RcvInv, SndInv, QueueShape, Coherent, Light;
    StartIsPacked(s, limit);
    PutAllPacks(Start(s, limit), AckPackets(s, s.acks), s.cfg.mtu);
  }

  lemma LinkAfterFlush(a: Node, a': Node, b: Node, conv: u32)
    requires a.st.cfg.mss > 0 && FlushedWell(a, a', conv) && Link(a, b)
    ensures Link(a', b)
  {
    hide Keeps, Has, Bytes, Flatten, Framed;
    var r := b.st.rcv;
    assert a'.log[r.nxt - |r.queue|..r.nxt] == a.log[r.nxt - |r.queue|..r.nxt];
    assert a'.log[..r.nxt - |r.queue|] == a.log[..r.nxt - |r.queue|];
  }

  // ---- input ------------------------------------------------------------------

  ghost predicate Pair(a: Node, b: Node, conv: u32) {
    NodeInv(a, conv) && NodeInv(b, conv) && Link(a, b) && Link(b, a)
  }

  /** `a` after its state became `s`. */
  function Became(a: Node, s: State): Node { a.(st := s) }

  lemma SegmentsSlice(buf: seq<Segment>, k: nat, log: seq<Chunk>, conv: u32)
    requires SegmentsGood(buf, log, conv) && k <= |buf|
    ensures SegmentsGood(buf[k..], log, conv)
  {
  }

  lemma BelowUna(una: u32, n: u32)
    requires una < TWO_31 && n < TWO_31 && Timediff(una, n) > 0
    ensures n < una
  {
  }

  lemma UnaLosesNothing(s: State, p: Packet, log: seq<Chunk>, r: Receiver, wnd: u16)
    requires SndInv(s.snd, wnd) && NothingLost(s.snd.buf, log, r) && p.una <= r.nxt < TWO_31 && |log| <= TWO_31
    ensures NothingLost(TakeHeader(s, p).snd.buf, log, r)
  {
    hide Keeps, SndInv, ParseUna, Timediff;
    forall sn: u32 | sn < |log| ensures Keeps(TakeHeader(s, p).snd.buf, sn) || Has(r, sn) {
      var k := UnaKeeps(s.snd, p.una, wnd, sn);
      if Keeps(s.snd.buf, sn) && !Keeps(TakeHeader(s, p).snd.buf, sn) {
        BelowUna(p.una, sn);
      }
    }
  }

  lemma HeaderPair(a: Node, b: Node, p: Packet, conv: u32)
    requires Pair(a, b, conv) && Good(p, b.log, b.st.rcv, conv)
    ensures Pair(Became(a, TakeHeader(a.st, p)), b, conv)
  {
    hide AcksGood, AllGood, NetGood, Accounted, SegmentsGood, Matches, Delivered, NothingLost, TakeHeader, Has;
    assert b.st.rcv.nxt <= |a.log| by { MatchesBound(b.st.rcv, a.log); }
    EndInvParts(a.st);
    TakeHeaderKeeps(a.st, p);
    hide EndInv;
    var k := UnaKeeps(a.st.snd, p.una, a.st.cfg.sndWnd, 0);
    HeaderParts(a.st, p);
    SegmentsSlice(a.st.snd.buf, k, a.log, conv);
    UnaLosesNothing(a.st, p, a.log, b.st.rcv, a.st.cfg.sndWnd);
  }

  lemma MatchesBound(r: Receiver, log: seq<Chunk>)
    requires Matches(r, log)
    ensures |r.queue| <= r.nxt <= |log|
  {
  }

  lemma HeaderParts(s: State, p: Packet)
    ensures var t := TakeHeader(s, p); t == s.(rmtWnd := p.wnd, snd := t.snd) && t.snd.buf == ParseUna(s.snd.buf, p.una)
    ensures var t := TakeHeader(s, p); t.snd.nxt == s.snd.nxt && t.snd.queue == s.snd.queue
  {
    hide ParseUna;
  }

  lemma AckLosesNothing(s: State, p: Packet, log: seq<Chunk>, r: Receiver, wnd: u16)
    requires SndInv(s.snd, wnd) && NothingLost(s.snd.buf, log, r) && Has(r, p.sn)
    ensures NothingLost(TakeAck(s, p).snd.buf, log, r)
  {
    hide Keeps, SndInv, ParseAck, Timediff, Has, UpdateAck;
    forall sn: u32 | sn < |log| ensures Keeps(TakeAck(s, p).snd.buf, sn) || Has(r, sn) {
      var k := AckKeeps(s.snd, p.sn, wnd, sn);
      AckParts(s, p);
    }
  }

  lemma AckParts(s: State, p: Packet)
    ensures var t := TakeAck(s, p);
            t == s.(rtt := t.rtt, snd := t.snd) && t.snd.buf == Shrink(ParseAck(s.snd, p.sn)).buf &&
            t.snd.nxt == s.snd.nxt && t.snd.queue == s.snd.queue
  {
    hide RemoveSn, Timediff, UpdateAck;
  }

  lemma SegmentsRemoved(buf: seq<Segment>, m: seq<Segment>, k: nat, log: seq<Chunk>, conv: u32)
    requires SegmentsGood(buf, log, conv) && (m == buf || Removed(m, buf, k))
    ensures SegmentsGood(m, log, conv)
  {
  }

  lemma AckPair(a: Node, b: Node, p: Packet, conv: u32)
    requires Pair(a, b, conv) && Good(p, b.log, b.st.rcv, conv) && p.cmd == CMD_ACK
    ensures Pair(Became(a, TakeAck(a.st, p)), b, conv)
  {
    hide AcksGood, AllGood, NetGood, Accounted, SegmentsGood, Matches, Delivered, NothingLost, TakeAck, Has, Removed;
    EndInvParts(a.st);
    TakeAckKeeps(a.st, p);
    hide EndInv;
    var k := AckKeeps(a.st.snd, p.sn, a.st.cfg.sndWnd, 0);
    AckParts(a.st, p);
    SegmentsRemoved(a.st.snd.buf, TakeAck(a.st, p).snd.buf, k, a.log, conv);
    AckLosesNothing(a.st, p, a.log, b.st.rcv, a.st.cfg.sndWnd);
  }

  lemma InsertMatches(m: seq<Packet>, buf: seq<Packet>, p: Packet, i: nat, log: seq<Chunk>)
    requires PacketsMatch(buf, log) && (m == buf || InsertedAt(m, buf, p, i)) && p.sn < |log| && log[p.sn] == ChunkOf(p)
    ensures PacketsMatch(m, log)
  {
  }

  lemma ParseDataMatches(r: Receiver, p: Packet, wnd: u16, log: seq<Chunk>)
    requires RcvInv(r, wnd) && r.nxt + |r.buf| < SN_LIMIT && Matches(r, log) && p.sn < |log| && log[p.sn] == ChunkOf(p)
    ensures var r' := ParseData(r, p, wnd); Matches(r', log) && r'.nxt - |r'.queue| == r.nxt - |r.queue|
  {
    hide ParseData, Insert, RcvInv;
    var i, k := ParseDataFacts(r, p, wnd);
    if r.nxt <= p.sn < r.nxt + wnd {
      InsertMatches(Insert(r.buf, p), r.buf, p, i, log);
      MatchesAccepted(r, ParseData(r, p, wnd), Insert(r.buf, p), k, log);
    }
  }

  /** A receiver that matches the log has no more beyond `nxt` than the log does. */
  lemma MatchesIsShort(r: Receiver, wnd: u16, log: seq<Chunk>)
    requires RcvInv(r, wnd) && Matches(r, log)
    ensures r.nxt + |r.buf| <= |log|
  {
    SortedIsShort(r.buf, r.nxt, |log|);
  }

  lemma ParseDataGrows(r: Receiver, p: Packet, wnd: u16)
    requires RcvInv(r, wnd) && r.nxt + |r.buf| < SN_LIMIT
    ensures Grows(r, ParseData(r, p, wnd)) && (p.sn < r.nxt + wnd ==> Has(ParseData(r, p, wnd), p.sn))
  {
    hide ParseData, Has, RcvInv;
    ParseDataHas(r, p, wnd, 0);
    forall n: u32 | Has(r, n) ensures Has(ParseData(r, p, wnd), n) {
      ParseDataHas(r, p, wnd, n);
    }
  }

  lemma WindowEdges(sn: u32, nxt: u32, wnd: u16)
    requires sn < TWO_31 && nxt < SN_LIMIT
    ensures Timediff(sn, Add32(nxt, wnd)) < 0 <==> sn < nxt + wnd
    ensures Timediff(sn, nxt) >= 0 <==> nxt <= sn
  {
  }

  lemma HasBelow(r: Receiver, n: u32)
    ensures n < r.nxt ==> Has(r, n)
  {
  }

  /** What accepting a data packet comes to: it is stored if it fits the window, and acknowledged only
      if the receiver then has it. */
  lemma PushFacts(s: State, p: Packet)
    requires RcvInv(s.rcv, s.cfg.rcvWnd) && s.rcv.nxt + |s.rcv.buf| < SN_LIMIT && p.sn < TWO_31
    ensures var t := TakePush(s, p);
            && t == s.(acks := t.acks, rcv := t.rcv) && Grows(s.rcv, t.rcv)
            && (t.rcv == s.rcv || t.rcv == ParseData(s.rcv, p, s.cfg.rcvWnd))
            && (t.acks == s.acks || (t.acks == s.acks + [Ack(p.sn, p.ts)] && Has(t.rcv, p.sn)))
            && (p.sn < s.rcv.nxt + s.cfg.rcvWnd ==> t.acks == s.acks + [Ack(p.sn, p.ts)])
  {
    hide Timediff, Add32, ParseData, RcvInv, Grows, Has;
    var wnd := s.cfg.rcvWnd;
    WindowEdges(p.sn, s.rcv.nxt, wnd);
    ParseDataGrows(s.rcv, p, wnd);
    HasBelow(s.rcv, p.sn);
    GrowsItself(s.rcv);
  }

  lemma AcksAdd(acks: seq<Ack>, a: Ack, rcv: Receiver)
    requires AcksGood(acks, rcv) && a.sn < TWO_31 && Has(rcv, a.sn)
    ensures AcksGood(acks + [a], rcv)
  {
    hide Has;
  }

  lemma DeliveredKeeps(log: seq<Chunk>, sent: seq<seq<byte>>, cfg: Config, r: Receiver, r': Receiver,
      got: seq<seq<byte>>)
    requires cfg.mss > 0 && Delivered(log, sent, cfg, r, got)
    requires |r'.queue| <= r'.nxt <= |log| && r'.nxt - |r'.queue| == r.nxt - |r.queue|
    ensures Delivered(log, sent, cfg, r', got)
  {
    hide Bytes, Flatten, Framed;
  }

  lemma PushNode(a: Node, p: Packet, log: seq<Chunk>, conv: u32)
    requires NodeInv(a, conv) && Matches(a.st.rcv, log) && |log| <= SEND_LIMIT
    requires p.sn < |log| && log[p.sn] == ChunkOf(p)
    ensures var t := TakePush(a.st, p);
            NodeInv(Became(a, t), conv) && Matches(t.rcv, log) &&
              t.rcv.nxt - |t.rcv.queue| == a.st.rcv.nxt - |a.st.rcv.queue|
    ensures Grows(a.st.rcv, TakePush(a.st, p).rcv)
    ensures TakePush(a.st, p).snd == a.st.snd && TakePush(a.st, p).cfg == a.st.cfg
  {
    hide AcksGood, AllGood, NetGood, Accounted, SegmentsGood, Matches, TakePush, Has, Grows;
    var s := a.st;
    EndInvParts(s);
    TakePushKeeps(s, p);
    EndInvParts(TakePush(s, p));
    hide EndInv;
    PushFacts(s, p);
    var t := TakePush(s, p);
    ParseDataMatches(s.rcv, p, s.cfg.rcvWnd, log);
    MatchesIsShort(t.rcv, t.cfg.rcvWnd, log);
    AcksGrow(s.acks, s.rcv, t.rcv);
    if t.acks != s.acks {
      AcksAdd(s.acks, Ack(p.sn, p.ts), t.rcv);
    }
    GoodGrows(s.buf, a.log, s.rcv, a.log, t.rcv, conv);
    NetGrows(a.net, a.log, s.rcv, a.log, t.rcv, conv);
  }

  lemma PushPair(a: Node, b: Node, p: Packet, conv: u32)
    requires Pair(a, b, conv) && Good(p, b.log, b.st.rcv, conv) && p.cmd == CMD_PUSH
    ensures Pair(Became(a, TakePush(a.st, p)), b, conv)
  {
    hide AcksGood, AllGood, NetGood, Accounted, SegmentsGood, Matches, Delivered, NothingLost, TakePush, Has, EndInv,
         Grows;
    EndInvParts(b.st);
    PushNode(a, p, b.log, conv);
    var t := TakePush(a.st, p);
    MatchesBound(t.rcv, b.log);
    DeliveredKeeps(b.log, b.sent, b.st.cfg, a.st.rcv, t.rcv, a.got);
    NothingLostGrows(b.st.snd.buf, b.log, a.st.rcv, t.rcv);
  }

  lemma TellPair(a: Node, b: Node, conv: u32)
    requires Pair(a, b, conv)
    ensures Pair(Became(a, a.st.(probe := a.st.probe.(tell := true))), b, conv)
  {
    hide AcksGood, AllGood, NetGood, Accounted, SegmentsGood, Matches, Delivered, NothingLost, SndInv, RcvInv,
         QueueShape, Light, Coherent, Size;
  }

  lemma InputOnePair(a: Node, b: Node, i: Inflow, p: Packet, conv: u32)
    requires Pair(a, b, conv) && Good(p, b.log, b.st.rcv, conv) && i.st == a.st
    ensures Pair(Became(a, InputOne(i, p).st), b, conv)
  {
    hide Pair, TakeHeader, TakeAck, TakePush, Has;
    HeaderPair(a, b, p, conv);
    var a' := Became(a, TakeHeader(a.st, p));
    if p.cmd == CMD_ACK {
      AckPair(a', b, p, conv);
    } else if p.cmd == CMD_PUSH {
      PushPair(a', b, p, conv);
    } else {
      TellPair(a', b, conv);
    }
  }

  lemma {:induction false} InputAllPair(a: Node, b: Node, i: Inflow, ps: seq<Packet>, conv: u32)
    requires Pair(a, b, conv) && AllGood(ps, b.log, b.st.rcv, conv) && i.st == a.st
    ensures Pair(Became(a, InputAll(i, ps).st), b, conv)
  {
    hide Pair, InputOne, Good;
    if ps != [] {
      var front := ps[..|ps| - 1];
      InputAllPair(a, b, i, front, conv);
      var i' := InputAll(i, front);
      InputOnePair(Became(a, i'.st), b, i', ps[|ps| - 1], conv);
    } else {
      assert Became(a, a.st) == a;
    }
  }

  lemma FastackSegments(s: Sender, sn: u32, log: seq<Chunk>, conv: u32)
    requires SegmentsGood(s.buf, log, conv)
    ensures var t := ParseFastack(s, sn);
            SegmentsGood(t.buf, log, conv) && forall n: u32 | Keeps(s.buf, n) :: Keeps(t.buf, n)
  {
    var t := ParseFastack(s, sn);
    BumpFacts(s.buf, sn);
    hide BumpFastack, InFlight;
    assert SameButFastack(s.buf, t.buf);
    forall n: u32 | Keeps(s.buf, n) ensures Keeps(t.buf, n) {
      var i :| 0 <= i < |s.buf| && s.buf[i].sn == n;
      assert t.buf[i].sn == n;
    }
  }

  lemma ConcludeParts(i: Inflow, oldUna: u32)
    requires i.st.cfg.mss > 0
    ensures var t := Conclude(i, oldUna); t == i.st.(snd := t.snd, cong := t.cong)
    ensures var t := Conclude(i, oldUna); t.snd == i.st.snd || t.snd == ParseFastack(i.st.snd, i.maxAck)
  {
    hide ParseFastack, Grow;
  }

  lemma ConcludePair(a: Node, b: Node, i: Inflow, oldUna: u32, conv: u32)
    requires Pair(a, b, conv) && i.st == a.st && a.st.cfg.mss > 0
    ensures Pair(Became(a, Conclude(i, oldUna)), b, conv)
  {
    hide AcksGood, AllGood, NetGood, Accounted, SegmentsGood, Matches, Delivered, Conclude, Keeps, Has, ParseFastack;
    ConcludeKeeps(i, oldUna);
    hide EndInv;
    ConcludeParts(i, oldUna);
    FastackSegments(a.st.snd, i.maxAck, a.log, conv);
  }

  // ---- the wire ---------------------------------------------------------------

  lemma DatagramLength(d: Datagram)
    ensures d != [] ==> |EncodeAll(d)| >= OVERHEAD
  {
  }

  /** A datagram on the wire is read back by the other side as the list of packets it was made of. */
  lemma WireRoundTrip(key: Option<Key>, d: Datagram, conv: u32)
    requires d != [] && forall i | 0 <= i < |d| :: Sendable(d[i], conv)
    ensures Seal(key, OnWire(key, d)) == EncodeAll(d) && |OnWire(key, d)| == |EncodeAll(d)| >= OVERHEAD
    ensures Parse(EncodeAll(d), conv, false) == Parsed(d, conv, false, Consumed(0))
  {
    hide EncodeAll, Seal;
    DatagramLength(d);
    var b := EncodeAll(d);
    UnsealSeal(key, b);
    ParseOfEncoding(d, [], conv, false);
    assert b + [] == b;
    assert d + [] == d;
  }

  lemma GoodIsSendable(d: Datagram, log: seq<Chunk>, rcv: Receiver, conv: u32)
    requires AllGood(d, log, rcv, conv)
    ensures forall i | 0 <= i < |d| :: Sendable(d[i], conv)
  {
    hide Has;
  }

  /** On a good datagram `input` is the fold of its per-segment step, followed by the conclusion. */
  lemma InputOfGood(s: State, d: Datagram, key: Option<Key>)
    requires s.cfg.mss > 0 && !s.inputConv && d != [] && forall i | 0 <= i < |d| :: Sendable(d[i], s.conv)
    ensures var w := OnWire(key, d); var i := InputPackets(s, d);
            i.st.cfg == s.cfg && Intake(s, key, w, true) == InputResult(Conclude(i, s.snd.una), Ok(|w|))
  {
    hide EncodeAll, Seal, Conclude;
    WireRoundTrip(key, d, s.conv);
    InputAllConfig(Inflow(s, false, 0), d);
  }

  lemma NodeInputPair(a: Node, b: Node, d: Datagram, key: Option<Key>, conv: u32)
    requires Pair(a, b, conv) && d in b.net
    ensures a.st.cfg.mss > 0 && Pair(NodeInput(a, OnWire(key, d), key), b, conv)
  {
    hide Accounted, SegmentsGood, AcksGood, Matches, Delivered, NothingLost, Conclude, AllGood, InputAll, EncodeAll,
         Intake;
    EndInvParts(a.st);
    hide EndInv;
    assert d != [] && AllGood(d, b.log, b.st.rcv, conv);
    GoodIsSendable(d, b.log, b.st.rcv, conv);
    InputOfGood(a.st, d, key);
    hide OnWire, NodeInv, Link;
    var i := InputPackets(a.st, d);
    InputAllPair(a, b, Inflow(a.st, false, 0), d, conv);
    ConcludePair(Became(a, i.st), b, i, a.st.snd.una, conv);
  }
}
