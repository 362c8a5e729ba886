/** What holds in every run of two endpoints over the network. */
module Safety {
  import opened Arith
  import opened Errors
  import opened Wire
  import opened Chunks
  import opened Receiving
  import opened Sending
  import opened Control
  import opened Packing
  import opened Engine
  import opened Endpoint
  import opened Flushing
  import opened Network
  import opened Preservation

  // ---- runs -------------------------------------------------------------------

  lemma FlushedConfig(s: State, now: u32, limit: nat)
    ensures Update(s, now, limit).st.cfg == s.cfg && FlushAsync(s, limit).st.cfg == s.cfg
    ensures s.clock.updated ==> FlushAck(s, limit).st.cfg == s.cfg
  {
    hide Flush, PutAll, Slap, Schedule;
    var c := Touch(s.clock, now);
    FlushState(s.(clock := Schedule(c, s.cfg.interval)), limit);
    FlushState(s.(clock := Touch(s.clock, Add32(s.clock.current, 10))), limit);
  }

  lemma InputConfig(s: State, b: seq<byte>)
    requires s.cfg.mss > 0
    ensures Input(s, b).st.cfg == s.cfg
  {
    hide ParseFastack, Grow, Parse;
    if |b| >= OVERHEAD {
      InputAllConfig(Inflow(s, false, 0), Parse(b, s.conv, s.inputConv).packets);
    }
  }

  lemma IntakeConfig(s: State, key: Option<Key>, b: seq<byte>, decode: bool)
    requires s.cfg.mss > 0
    ensures Intake(s, key, b, decode).st.cfg == s.cfg
  {
    hide Input, Seal;
    if !(decode && |b| < 4) {
      InputConfig(s, if decode then Seal(key, b) else b);
    }
  }

  lemma StepRuns(s: System, a: Action)
    requires Runnable(s)
    ensures Runnable(Step(s, a))
  {
    hide Update, FlushAsync, FlushAck, Intake, Send, Recv, OnWire;
    var n := At(s, a.side);
    match a {
      case DoSend(_, data) =>
      case DoRecv(_, size) =>
      case DoUpdate(_, now, limit) => FlushedConfig(n.st, now, limit);
      case DoFlush(_, limit) => FlushedConfig(n.st, 0, limit);
      case DoFlushAck(_, limit) => FlushedConfig(n.st, 0, limit);
      case Deliver(_, d) => IntakeConfig(n.st, s.key, OnWire(s.key, d), true);
    }
  }

  function Run(s: System, acts: seq<Action>): (t: System)
    requires Runnable(s)
    ensures Runnable(t)
    decreases |acts|
  {
    if acts == [] then s
    else
      StepRuns(s, acts[0]);
      Run(Step(s, acts[0]), acts[1..])
  }

  lemma {:induction false} RunAppend(s: System, a: seq<Action>, b: seq<Action>)
    requires Runnable(s)
    ensures Run(s, a + b) == Run(Run(s, a), b)
    decreases |a|
  {
    hide Step;
    if a == [] {
      assert a + b == b;
    } else {
      StepRuns(s, a[0]);
      assert (a + b)[1..] == a[1..] + b;
      RunAppend(Step(s, a[0]), a[1..], b);
    }
  }

  // ---- the invariant holds ------------------------------------------------------

  lemma BeginsInOrder(s: System, conv: u32)
    requires Begins(s, conv)
    ensures Runnable(s) && Inv(s, conv)
  {
    InitialInv(s.left.st.cfg, conv, s.left.st.clock.current);
    InitialInv(s.right.st.cfg, conv, s.right.st.clock.current);
    FreshPair(s.left, s.right, conv);
    FreshPair(s.right, s.left, conv);
  }

  lemma FreshPair(a: Node, b: Node, conv: u32)
    requires EndInv(a.st) && EndInv(b.st)
    requires a == Fresh(a.st.cfg, conv, a.st.clock.current) && b == Fresh(b.st.cfg, conv, b.st.clock.current)
    ensures NodeInv(a, conv) && Link(a, b)
  {
    hide EndInv, Link, Accounted, SegmentsGood, AcksGood, AllGood, NetGood;
    EndInvParts(a.st);
    FreshParts(a, conv);
    FreshLink(a, b, conv);
  }

  lemma FreshParts(a: Node, conv: u32)
    requires a == Fresh(a.st.cfg, conv, a.st.clock.current) && a.st.cfg.mss > 0
    ensures Accounted(a.log + a.st.snd.queue, a.sent, a.st.cfg.mss, a.st.cfg.stream)
    ensures SegmentsGood(a.st.snd.buf, a.log, conv) && AcksGood(a.st.acks, a.st.rcv)
    ensures AllGood(a.st.buf, a.log, a.st.rcv, conv) && NetGood(a.net, a.log, a.st.rcv, conv)
  {
    assert a.log + a.st.snd.queue == [];
  }

  lemma FreshLink(a: Node, b: Node, conv: u32)
    requires a == Fresh(a.st.cfg, conv, a.st.clock.current) && b == Fresh(b.st.cfg, conv, b.st.clock.current)
    requires a.st.cfg.mss > 0
    ensures Link(a, b)
  {
    assert a.log[..0] == [];
  }

  lemma NodeStep(a: Node, b: Node, act: Action, key: Option<Key>, conv: u32) returns (a': Node)
    requires Pair(a, b, conv) && a.st.cfg.mss > 0
    requires act.Deliver? ==> act.d in b.net
    requires act.DoFlushAck? ==> a.st.clock.updated
    ensures a' == (match act
                   case DoSend(_, data) => NodeSend(a, data)
                   case DoRecv(_, size) => NodeRecv(a, size)
                   case DoUpdate(_, now, limit) => NodeFlushed(a, Update(a.st, now, limit))
                   case DoFlush(_, limit) => NodeFlushed(a, FlushAsync(a.st, limit))
                   case DoFlushAck(_, limit) => NodeFlushed(a, FlushAck(a.st, limit))
                   case Deliver(_, d) => NodeInput(a, OnWire(key, d), key))
    ensures Pair(a', b, conv)
  {
    hide NodeInv, Update, FlushAsync, FlushAck, Intake, Send, Recv, OnWire, FlushedWell;
    match act {
      case DoSend(_, data) =>
        SendInv(a, data, conv);
        a' := NodeSend(a, data);
        SendLink(a, b, data, conv);
      case DoRecv(_, size) =>
        RecvInv(a, size, conv);
        a' := NodeRecv(a, size);
        RecvLink(b, a, size, conv);
        RecvLeavesSender(a, b, size);
      case DoUpdate(_, now, limit) =>
        UpdateNode(a, now, limit, conv);
        a' := NodeFlushed(a, Update(a.st, now, limit));
        FlushedPair(a, a', b, conv);
      case DoFlush(_, limit) =>
        FlushAsyncNode(a, limit, conv);
        a' := NodeFlushed(a, FlushAsync(a.st, limit));
        FlushedPair(a, a', b, conv);
      case DoFlushAck(_, limit) =>
        FlushAckNode(a, limit, conv);
        a' := NodeFlushed(a, FlushAck(a.st, limit));
        FlushedPair(a, a', b, conv);
      case Deliver(_, d) =>
        NodeInputPair(a, b, d, key, conv);
        a' := NodeInput(a, OnWire(key, d), key);
    }
  }

  lemma SendLink(a: Node, b: Node, data: seq<byte>, conv: u32)
    requires Pair(a, b, conv) && a.st.cfg.mss > 0
    ensures Link(NodeSend(a, data), b) && b.st.cfg.mss > 0 && Link(b, NodeSend(a, data))
  {
    hide NodeInv, Send, Matches, NothingLost, Bytes, Flatten, Framed, Taken;
    assert b.st.cfg.mss > 0 by { PairRuns(a, b, conv); }
  }

  lemma PairRuns(a: Node, b: Node, conv: u32)
    requires Pair(a, b, conv)
    ensures a.st.cfg.mss > 0 && b.st.cfg.mss > 0
  {
    EndInvParts(a.st);
    EndInvParts(b.st);
  }

  lemma RecvLeavesSender(a: Node, b: Node, size: nat)
    requires a.st.cfg.mss > 0 && Link(a, b)
    ensures Link(NodeRecv(a, size), b)
  {
    hide Recv, Matches, NothingLost, Delivered;
  }

  lemma FlushedPair(a: Node, a': Node, b: Node, conv: u32)
    requires Pair(a, b, conv) && a.st.cfg.mss > 0 && NodeInv(a', conv) && FlushedWell(a, a', conv)
    ensures Pair(a', b, conv)
  {
    hide NodeInv, Matches, NothingLost, Delivered, Keeps;
    LinkAfterFlush(a, a', b, conv);
  }

  lemma PairSymmetric(a: Node, b: Node, conv: u32)
    requires Pair(a, b, conv)
    ensures Pair(b, a, conv)
  {
    hide NodeInv, Link;
  }

  /** One step of the system, whichever side takes it. */
  lemma StepKeeps(s: System, act: Action, conv: u32)
    requires Runnable(s) && Pair(s.left, s.right, conv)
    ensures Pair(Step(s, act).left, Step(s, act).right, conv)
  {
    hide Pair, Update, FlushAsync, FlushAck, NodeInput, NodeSend, NodeRecv, NodeFlushed, OnWire;
    PairSymmetric(s.left, s.right, conv);
    var a, b := At(s, act.side), At(s, Other(act.side));
    if (act.Deliver? ==> act.d in b.net) && (act.DoFlushAck? ==> a.st.clock.updated) {
      var a' := NodeStep(a, b, act, s.key, conv);
      PairSymmetric(a', b, conv);
      assert Step(s, act) == With(s, act.side, a');
    }
  }

  lemma {:induction false} RunKeeps(s: System, acts: seq<Action>, conv: u32)
    requires Runnable(s) && Pair(s.left, s.right, conv)
    ensures Pair(Run(s, acts).left, Run(s, acts).right, conv)
    decreases |acts|
  {
    hide Pair, Step;
    if acts != [] {
      StepRuns(s, acts[0]);
      StepKeeps(s, acts[0], conv);
      RunKeeps(Step(s, acts[0]), acts[1..], conv);
    }
  }

  lemma BeginsAsPair(s: System, conv: u32)
    requires Begins(s, conv)
    ensures Runnable(s) && Pair(s.left, s.right, conv)
  {
    BeginsInOrder(s, conv);
    hide NodeInv, Link, Begins;
  }

  // ---- the theorems -------------------------------------------------------------

  /** In every reachable state both directions are in order. */
  lemma Reachable(s: System, acts: seq<Action>, side: Side, conv: u32)
    requires Begins(s, conv)
    ensures Runnable(s) && Pair(At(Run(s, acts), side), At(Run(s, acts), Other(side)), conv)
  {
    hide Begins, Pair, Run;
    BeginsAsPair(s, conv);
    RunKeeps(s, acts, conv);
    var t := Run(s, acts);
    PairSymmetric(t.left, t.right, conv);
  }

  /** End-to-end exactness: at every moment of every run, the bytes returned by the `recv` calls of one
      side are a prefix of the bytes taken over by the `send` calls of the other. */
  lemma ExactDelivery(s: System, acts: seq<Action>, side: Side, conv: u32)
    requires Begins(s, conv)
    ensures Runnable(s)
    ensures var t := Run(s, acts); Flatten(At(t, Other(side)).got) <= Flatten(At(t, side).sent)
  {
    Reachable(s, acts, side, conv);
    hide Begins, Pair, Run;
    var t := Run(s, acts);
    PrefixOfPair(At(t, side), At(t, Other(side)), conv);
  }

  lemma PrefixOfPair(a: Node, b: Node, conv: u32)
    requires Pair(a, b, conv)
    ensures Flatten(b.got) <= Flatten(a.sent)
  {
    hide Own, SegmentsGood, AcksGood, AllGood, NetGood, NothingLost, Matches, Bytes, Flatten, Framed, MessageChunks,
         Unframed;
    PairRuns(a, b, conv);
    var all := a.log + a.st.snd.queue;
    var front := b.st.rcv.nxt - |b.st.rcv.queue|;
    assert all == a.log[..front] + all[front..];
    BytesAppend(a.log[..front], all[front..]);
  }

  /** Message boundaries: in message mode the k-th successful `recv` returns exactly the k-th accepted message. */
  lemma MessageBoundaries(s: System, acts: seq<Action>, side: Side, conv: u32)
    requires Begins(s, conv) && !At(s, side).st.cfg.stream
    ensures Runnable(s) && At(Run(s, acts), Other(side)).got <= At(Run(s, acts), side).sent
  {
    Reachable(s, acts, side, conv);
    hide Begins;
    RunConfig(s, acts);
    hide Run, NodeInv, Matches, NothingLost, Bytes, Flatten, Framed;
  }

  lemma StepConfig(s: System, a: Action)
    requires Runnable(s)
    ensures Step(s, a).left.st.cfg == s.left.st.cfg && Step(s, a).right.st.cfg == s.right.st.cfg
  {
    hide Update, FlushAsync, FlushAck, Intake, Send, Recv, OnWire;
    var n := At(s, a.side);
    match a {
      case DoSend(_, data) =>
      case DoRecv(_, size) =>
      case DoUpdate(_, now, limit) => FlushedConfig(n.st, now, limit);
      case DoFlush(_, limit) => FlushedConfig(n.st, 0, limit);
      case DoFlushAck(_, limit) => FlushedConfig(n.st, 0, limit);
      case Deliver(_, d) => IntakeConfig(n.st, s.key, OnWire(s.key, d), true);
    }
  }

  lemma {:induction false} RunConfig(s: System, acts: seq<Action>)
    requires Runnable(s)
    ensures Run(s, acts).left.st.cfg == s.left.st.cfg && Run(s, acts).right.st.cfg == s.right.st.cfg
    decreases |acts|
  {
    hide Step;
    if acts != [] {
      StepRuns(s, acts[0]);
      StepConfig(s, acts[0]);
      RunConfig(Step(s, acts[0]), acts[1..]);
    }
  }

  /** Nothing is lost: in every reachable state every number given is still kept for retransmission, or the
      other side has it. Whatever a datagram ever sent says about its sender is still true: its data is the
      numbered data, its cumulative and selective acknowledgements name what that sender has. */
  lemma NothingIsLost(s: System, acts: seq<Action>, side: Side, conv: u32)
    requires Begins(s, conv)
    ensures Runnable(s)
    ensures var a, b := At(Run(s, acts), side), At(Run(s, acts), Other(side));
            && |a.log| == a.st.snd.nxt && b.st.rcv.nxt <= a.st.snd.nxt
            && (forall sn: u32 | sn < a.st.snd.nxt :: Keeps(a.st.snd.buf, sn) || Has(b.st.rcv, sn))
            && NetGood(b.net, b.log, b.st.rcv, conv) && AcksGood(b.st.acks, b.st.rcv)
  {
    Reachable(s, acts, side, conv);
    hide Begins, Run, SegmentsGood, AllGood, Delivered, Accounted, Keeps, Has, EndInv;
  }

  /** A full receive queue always has a whole message at its front, so that `recv` can make room. */
  lemma NeverWedged(s: System, acts: seq<Action>, side: Side, conv: u32)
    requires Begins(s, conv)
    ensures Runnable(s)
    ensures var r := At(Run(s, acts), side);
            |r.st.rcv.queue| >= r.st.cfg.rcvWnd ==> PeekSize(ChunksOf(r.st.rcv.queue)).Ok?
  {
    Reachable(s, acts, Other(side), conv);
    hide Begins, Run, Pair;
    var t := Run(s, acts);
    QueueYields(At(t, Other(side)), At(t, side), conv);
  }

  /** A receive queue that yields nothing holds less than one message, and in stream mode nothing; when
      everything the sender has taken over is there, it yields unless it is empty. */
  lemma QueueYields(a: Node, b: Node, conv: u32)
    requires Pair(a, b, conv)
    ensures PeekSize(ChunksOf(b.st.rcv.queue)).Err? ==> |b.st.rcv.queue| < FRAGMENT_LIMIT <= b.st.cfg.rcvWnd
    ensures b.st.rcv.queue != [] && b.st.rcv.nxt == |a.log| && a.st.snd.queue == [] ==>
            PeekSize(ChunksOf(b.st.rcv.queue)).Ok?
  {
    hide Own, SegmentsGood, AcksGood, AllGood, NetGood, NothingLost, Bytes, Flatten, Framed, MessageChunks, MessageEnd,
         PeekSize, Unframed;
    PairRuns(a, b, conv);
    PairWindow(a, b, conv);
    var r := b.st.rcv;
    var cs := ChunksOf(r.queue);
    var all := a.log + a.st.snd.queue;
    if cs != [] {
      var front := r.nxt - |r.queue|;
      assert cs == all[front..r.nxt] == all[front..front + |cs|];
      if a.st.cfg.stream {
        StreamYields(all, cs, front);
      } else {
        assert a.sent[..|b.got|] == b.got;
        FrontIsNextMessage(all, a.sent, |b.got|, cs, a.st.cfg.mss);
        if r.nxt == |all| {
          LastMessageIsWhole(a.sent, |b.got|, cs, a.st.cfg.mss);
        }
      }
    }
  }

  lemma PairWindow(a: Node, b: Node, conv: u32)
    requires Pair(a, b, conv)
    ensures b.st.cfg.rcvWnd >= FRAGMENT_LIMIT
  {
    EndInvParts(b.st);
  }

  lemma StreamYields(all: seq<Chunk>, cs: seq<Chunk>, front: nat)
    requires Unframed(all) && cs != [] && front + |cs| <= |all| && cs == all[front..front + |cs|]
    ensures PeekSize(cs).Ok?
  {
    assert cs[0] == all[front];
  }

  lemma LastMessageIsWhole(sent: seq<seq<byte>>, g: nat, cs: seq<Chunk>, mss: nat)
    requires mss > 0 && g < |sent|
    requires var all := Framed(sent, mss); var front := |Framed(sent[..g], mss)|; front <= |all| && cs == all[front..]
    ensures |MessageChunks(sent[g], mss)| <= |cs|
  {
    hide MessageChunks;
    assert sent == sent[..g] + sent[g..];
    FramedAppend(sent[..g], sent[g..], mss);
    assert sent[g..][0] == sent[g];
    assert Framed(sent[g..], mss) == MessageChunks(sent[g], mss) + Framed(sent[g..][1..], mss);
  }
}
