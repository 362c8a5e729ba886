/** The engine itself: one endpoint with its mutable fields, and the loops that work on them. Each method
    is proved to do what the corresponding function of the other modules says. */
module KcpEngine {
  import opened Arith
  import opened Errors
  import opened Wire
  import opened Chunks
  import opened Control
  import opened Endpoint
  import R = Receiving
  import S = Sending
  import P = Packing
  import E = Engine
  import F = Flushing

  /** The output side: an optional key and the socket. `room` is how many datagrams the socket takes before
      it reports an error; `wire` is what it has been given. */
  class KcpOutput {
    const key: Option<Key>
    var room: nat
    ghost var wire: seq<seq<byte>>

    constructor (key: Option<Key>, room: nat)
      ensures this.key == key && this.room == room && wire == []
    {
      this.key := key;
      this.room := room;
      wire := [];
    }

    /** XOR in place, from position `from` on. */
    method Decode(data: array<byte>, from: nat)
      requires from <= data.Length
      modifies data
      ensures data[..from] == old(data[..from])
      ensures data[from..] == if key.None? then old(data[from..]) else Mask(old(data[from..]), key.value)
    {
      hide XorByte, Mask;
      MaskOfNothing(data[from..]);
      if key.Some? && key.value != [] {
        var k := key.value;
        var j := 0;
        for i := from to data.Length
          invariant j == (i - from) % |k|
          invariant forall x | 0 <= x < data.Length && !(from <= x < i) :: data[x] == old(data[x])
          invariant forall x | from <= x < i :: data[x] == XorByte(old(data[x]), k[(x - from) % |k|])
        {
          data[i] := XorByte(data[i], k[j]);
          NextIndex(i - from, |k|);
          j := j + 1;
          if j >= |k| {
            j := 0;
          }
        }
        MaskIs(old(data[..]), data[..], from, k);
      }
    }

    lemma MaskOfNothing(b: seq<byte>)
      ensures Mask(b, []) == b
    {
    }

    lemma MaskIs(b: seq<byte>, m: seq<byte>, from: nat, k: Key)
      requires from <= |b| == |m| && k != []
      requires forall x | from <= x < |b| :: m[x] == XorByte(b[x], k[(x - from) % |k|])
      ensures m[from..] == Mask(b[from..], k)
    {
      hide XorByte;
    }

    lemma NextIndex(n: nat, m: nat)
      requires m > 0
      ensures (n + 1) % m == if n % m + 1 >= m then 0 else n % m + 1
    {
      var q, r := n / m, n % m;
      if r + 1 >= m {
        assert n + 1 == (q + 1) * m;
        RemainderIs(n + 1, m, q + 1, 0);
      } else {
        RemainderIs(n + 1, m, q, r + 1);
      }
    }

    lemma RemainderIs(n: nat, m: nat, q: nat, r: nat)
      requires m > 0 && n == q * m + r && r < m
      ensures n % m == r
    {
      QuotientIs(n, m, q);
    }

    method Send(data: seq<byte>) returns (ok: bool)
      requires key.Some? ==> |data| >= 4
      modifies this
      ensures ok == (old(room) > 0) && room == (if ok then old(room) - 1 else 0)
      ensures wire == if ok then old(wire) + [Seal(key, data)] else old(wire)
    {
      var out := data;
      if key.Some? {
        var buff := new byte[|data|](i requires 0 <= i < |data| => data[i]);
        assert buff[..] == data;
        Decode(buff, 4);
        out := buff[..];
        assert out == Seal(key, data);
      }
      ok := room > 0;
      if ok {
        room := room - 1;
        wire := wire + [out];
      }
    }
  }

  class Kcp {
    const output: KcpOutput

    var cfg: E.Config
    var conv: u32
    var inputConv: bool
    var dead: bool
    var sndUna: u32
    var sndNxt: u32
    var rcvNxt: u32
    var cong: Congestion
    var rtt: Rtt
    var rmtWnd: u16
    var probe: E.Probe
    var clock: E.Clock
    var xmit: u32
    var sndQueue: seq<Chunk>
    var rcvQueue: seq<Packet>
    var sndBuf: seq<S.Segment>
    var rcvBuf: seq<Packet>
    var acklist: seq<E.Ack>
    var buf: seq<byte>

    /** The segments whose encodings `buf` holds, and all datagrams handed to the output. */
    ghost var packed: Datagram
    ghost var emitted: seq<Datagram>

    // ---- the abstract state ---------------------------------------------------

    ghost function Sender(): S.Sender
      reads this`sndUna, this`sndNxt, this`sndQueue, this`sndBuf
    {
      S.Sender(sndUna, sndNxt, sndQueue, sndBuf)
    }

    ghost function Receiver(): R.Receiver
      reads this`rcvNxt, this`rcvQueue, this`rcvBuf
    {
      R.Receiver(rcvNxt, rcvQueue, rcvBuf)
    }

    ghost function State(): E.State
      reads this
    {
      E.State(cfg, conv, inputConv, Sender(), Receiver(), acklist, cong, rmtWnd, rtt, probe, clock, xmit, dead, packed)
    }

    /** The bytes in the buffer and on the wire are the encodings of segments. */
    ghost predicate Encoded()
      reads this`buf, this`packed, this`emitted, output
    {
      buf == EncodeAll(packed) && output.wire == Wired(output.key, emitted)
    }

    ghost predicate Valid()
      reads this, output
    {
      Encoded() && EndInv(State())
    }

    constructor (conv: u32, currentTs: u32, output: KcpOutput, stream: bool)
      requires output.wire == []
      ensures Valid() && State() == E.Initial(E.DefaultConfig(stream), conv, currentTs)
      ensures this.output == output && emitted == []
      ensures cfg.mtu == 1400 && cfg.mss == 1376 && cfg.sndWnd == 32 && cfg.rcvWnd == 128 && cfg.interval == 100
      ensures cfg.minRto == 100 && cfg.deadLink == 10 && cfg.fastresend == 0 && !cfg.nodelay && !cfg.nocwnd
      ensures rtt == Rtt(0, 0, 200) && cong == Congestion(0, 0, 2) && rmtWnd == 128
    {
      this.output := output;
      this.conv := conv;
      cfg := E.DefaultConfig(stream);
      inputConv, dead := false, false;
      sndUna, sndNxt, rcvNxt := 0, 0, 0;
      cong, rtt := Congestion(0, 0, THRESH_INIT), Rtt(0, 0, RTO_DEF);
      rmtWnd := E.WND_RCV;
      probe, clock := E.Probe(false, false, 0, 0), E.Clock(currentTs, E.INTERVAL, false);
      xmit := 0;
      sndQueue, rcvQueue, sndBuf, rcvBuf, acklist, buf := [], [], [], [], [], [];
      packed, emitted := [], [];
      new;
      InitialInv(E.DefaultConfig(stream), conv, currentTs);
    }

    // ---- configuration --------------------------------------------------------

    /** The segment size follows the mtu. The invariant survives while nothing is queued that was cut to the
        old one. */
    method SetMtu(mtu: nat) returns (r: Result<()>)
      modifies this`cfg
      ensures mtu < 50 ==> r == Err(InvalidMtu(mtu)) && cfg == old(cfg)
      ensures mtu >= 50 ==> r == Ok(()) && cfg == old(cfg).(mtu := mtu, mss := Wrap32(mtu - OVERHEAD))
      ensures old(Valid() && sndQueue == [] && sndBuf == [] && buf == [] && cong == Congestion(0, 0, THRESH_INIT)) &&
              mtu < TWO_32
              ==> Valid()
    {
      hide EndInv, Wired;
      if mtu < 50 || mtu < OVERHEAD {
        return Err(InvalidMtu(mtu));
      }
      if mtu < TWO_32 && EndInv(State()) && sndQueue == [] && sndBuf == [] && EncodeAll(packed) == [] &&
        cong == Congestion(0, 0, THRESH_INIT) {
        MtuKeeps(State(), mtu);
      }
      cfg := cfg.(mtu := mtu, mss := Wrap32(mtu - OVERHEAD));
      return Ok(());
    }

    static lemma MtuKeeps(s: E.State, mtu: nat)
      requires EndInv(s) && s.snd.queue == [] && s.snd.buf == [] && EncodeAll(s.buf) == [] && 50 <= mtu < TWO_32
      requires s.cong == Congestion(0, 0, THRESH_INIT)
      ensures EndInv(s.(cfg := s.cfg.(mtu := mtu, mss := mtu - OVERHEAD)))
    {
      assert s.buf == [];
    }

    /** Window sizes of zero are ignored, and the receive window is never less than the default. */
    method SetWndsize(sndwnd: u16, rcvwnd: u16)
      modifies this`cfg
      ensures old(Valid() && sndBuf == [] && rcvQueue == [] && rcvBuf == []) ==> Valid()
      ensures cfg == old(cfg).(sndWnd := if sndwnd > 0 then sndwnd else old(cfg.sndWnd),
                               rcvWnd := if rcvwnd == 0 then old(cfg.rcvWnd) else if rcvwnd < 128 then 128 else rcvwnd)
    {
      hide EndInv, Wired;
      if EndInv(State()) && sndBuf == [] && rcvQueue == [] && rcvBuf == [] {
        WindowsKeep(State(), if sndwnd > 0 then sndwnd else cfg.sndWnd,
          if rcvwnd > 0 then Max(rcvwnd, E.WND_RCV) else cfg.rcvWnd);
      }
      var c := cfg;
      if sndwnd > 0 {
        c := c.(sndWnd := sndwnd);
      }
      if rcvwnd > 0 {
        c := c.(rcvWnd := Max(rcvwnd, E.WND_RCV));
      }
      cfg := c;
    }

    static lemma WindowsKeep(s: E.State, sndWnd: u16, rcvWnd: u16)
      requires EndInv(s) && s.snd.buf == [] && s.rcv.queue == [] && s.rcv.buf == []
      requires (sndWnd > 0 || sndWnd == s.cfg.sndWnd) && (rcvWnd >= E.WND_RCV || rcvWnd == s.cfg.rcvWnd)
      ensures EndInv(s.(cfg := s.cfg.(sndWnd := sndWnd, rcvWnd := rcvWnd)))
    {
    }

    /** The clamp to 10..5000 has no effect: whatever is asked for is stored. */
    method SetInterval(interval: u32)
      modifies this`cfg
      ensures cfg == old(cfg).(interval := interval) && (old(Valid()) ==> Valid())
    {
      hide EndInv, Wired, Sender, Receiver;
      ConfigKeeps(State(), cfg.(interval := interval));
      var c := cfg;
      if interval < 10 {
        c := c.(interval := 10);
      } else if interval > 5000 {
        c := c.(interval := 5000);
      } else {
        c := c.(interval := interval);
      }
      cfg := c.(interval := interval);
    }

    /** Here the clamp is effective. */
    method SetNodelay(nodelay: bool, interval: int, resend: int, nc: bool)
      requires -TWO_31 <= interval < TWO_31 && -TWO_31 <= resend < TWO_31
      modifies this`cfg
      ensures old(Valid()) ==> Valid()
      ensures cfg == old(cfg).(nodelay := nodelay, minRto := if nodelay then 30 else 100, nocwnd := nc,
                               interval := cfg.interval,
                                 fastresend := if resend >= 0 then resend else old(cfg.fastresend))
      ensures if interval >= 0 then 10 <= cfg.interval <= 5000 && (10 <= interval <= 5000 ==> cfg.interval == interval)
              else cfg.interval == old(cfg.interval)
    {
      hide EndInv, Wired, Sender, Receiver;
      ghost var s := State();
      var c := cfg;
      if nodelay {
        c := c.(nodelay := true, minRto := RTO_NDL);
      } else {
        c := c.(nodelay := false, minRto := RTO_MIN);
      }
      if interval >= 0 {
        c := c.(interval := Min(Max(interval, 10), 5000));
      }
      if resend >= 0 {
        c := c.(fastresend := resend);
      }
      cfg := c.(nocwnd := nc);
      ConfigKeeps(s, cfg);
    }

    static lemma ConfigKeeps(s: E.State, c: E.Config)
      requires c.mtu == s.cfg.mtu && c.mss == s.cfg.mss && c.sndWnd == s.cfg.sndWnd
      requires c.rcvWnd == s.cfg.rcvWnd && c.stream == s.cfg.stream
      ensures EndInv(s) ==> EndInv(s.(cfg := c))
    {
    }

    // ---- receiving ------------------------------------------------------------

    method PeekSize() returns (r: Result<nat>)
      ensures r == Chunks.PeekSize(ChunksOf(rcvQueue))
    {
      if rcvQueue == [] {
        return Err(RecvQueueEmpty);
      }
      ghost var cs := ChunksOf(rcvQueue);
      var first := rcvQueue[0];
      if first.frg == 0 {
        return Ok(|first.data|);
      }
      if |rcvQueue| < (first.frg + 1) % 0x100 {
        return Err(ExpectingFragment);
      }
      var len := 0;
      var i := 0;
      while i < |rcvQueue|
        invariant i <= |rcvQueue| && len == |Bytes(cs[..i])|
        invariant MessageEnd(cs) == i + MessageEnd(cs[i..])
      {
        len := len + |rcvQueue[i].data|;
        assert cs[i] == ChunkOf(rcvQueue[i]) && cs[i..][0] == cs[i] && cs[i..][1..] == cs[i + 1..];
        BytesOfNext(cs, i);
        i := i + 1;
        if rcvQueue[i - 1].frg == 0 {
          break;
        }
      }
      assert i == |cs| ==> cs[i..] == [];
      return Ok(len);
    }

    static lemma BytesOfNext(cs: seq<Chunk>, i: nat)
      requires i < |cs|
      ensures Bytes(cs[..i + 1]) == Bytes(cs[..i]) + cs[i].data
    {
      S.BytesSnoc(cs[..i], cs[i]);
      assert cs[..i + 1] == cs[..i] + [cs[i]];
    }

    /** Moves what is next in line from the buffer to the queue. */
    method MoveAvailable()
      modifies this`rcvNxt, this`rcvQueue, this`rcvBuf
      ensures Receiver() == R.Drain(old(Receiver()), cfg.rcvWnd)
    {
      while rcvBuf != []
        invariant R.Drain(Receiver(), cfg.rcvWnd) == R.Drain(old(Receiver()), cfg.rcvWnd)
        decreases |rcvBuf|
      {
        if rcvBuf[0].sn == rcvNxt && |rcvQueue| < cfg.rcvWnd {
          rcvNxt := Add32(rcvNxt, 1);
        } else {
          break;
        }
        rcvQueue := rcvQueue + [rcvBuf[0]];
        rcvBuf := rcvBuf[1..];
      }
    }

    /** The buffer is filled from the front; an error leaves the engine and the buffer alone. */
    method Recv(user: array<byte>) returns (r: Result<nat>)
      requires Valid() && ReceiveRoom(State(), 0)
      modifies this`rcvNxt, this`rcvQueue, this`rcvBuf, this`probe, user
      ensures Valid()
      ensures State() == E.Receive(old(State()), user.Length).st
      ensures match E.Receive(old(State()), user.Length).result
              case Err(e) => r == Err(e) && user[..] == old(user[..])
              case Ok(data) => r == Ok(|data|) && |data| <= user.Length && user[..] == data + old(user[..])[|data|..]
    {
      hide R.Recv, EncodeAll, Wired, EndInv, Sender, ReceiveRoom;
      F.ReceiveKeeps(State(), user.Length);
      r := TakeMessage(user);
    }

    method TakeMessage(user: array<byte>) returns (r: Result<nat>)
      modifies this`rcvNxt, this`rcvQueue, this`rcvBuf, this`probe, user
      ensures match R.Recv(old(Receiver()), cfg.rcvWnd, user.Length)
              case Err(e) => r == Err(e) && user[..] == old(user[..]) && Receiver() == old(Receiver()) &&
                probe == old(probe)
              case Ok(out) =>
                && r == Ok(|out.data|) && |out.data| <= user.Length
                && user[..] == out.data + old(user[..])[|out.data|..]
                && Receiver() == out.rcv && probe == old(probe).(tell := old(probe.tell) || out.tell)
    {
      hide Bytes, R.Drain, Chunks.PeekSize, MessageEnd;
      ghost var r0, cs, k := Receiver(), ChunksOf(rcvQueue), MessageEnd(ChunksOf(rcvQueue));
      PeekOfNothing(rcvQueue);
      if rcvQueue == [] {
        return Err(RecvQueueEmpty);
      }
      var peek := PeekSize();
      if peek.Err? {
        return Err(peek.error);
      }
      var peeksize := peek.value;
      if peeksize > user.Length {
        return Err(UserBufTooSmall(peeksize));
      }
      var recover := |rcvQueue| >= cfg.rcvWnd;
      PeekSizeIsMessageSize(ChunksOf(rcvQueue));
      var pos := MergeFragments(user);
      assert pos == peeksize;
      assert Receiver() == r0.(queue := r0.queue[k..]);
      MoveAvailable();
      if |rcvQueue| < cfg.rcvWnd && recover {
        probe := probe.(tell := true);
      }
      return Ok(pos);
    }

    static lemma PeekOfNothing(q: seq<Packet>)
      ensures q == [] ==> Chunks.PeekSize(ChunksOf(q)) == Err(RecvQueueEmpty)
    {
    }

    /** Pops the front message and copies it into the buffer. */
    method MergeFragments(user: array<byte>) returns (pos: nat)
      requires var cs := ChunksOf(rcvQueue); |Bytes(cs[..MessageEnd(cs)])| <= user.Length
      modifies this`rcvQueue, user
      ensures var cs, k := ChunksOf(old(rcvQueue)), MessageEnd(ChunksOf(old(rcvQueue)));
              && rcvQueue == old(rcvQueue)[k..] && pos == |Bytes(cs[..k])|
              && user[..] == Bytes(cs[..k]) + old(user[..])[pos..]
    {
      hide Bytes, MessageEnd, ChunksOf, Merged;
      ghost var cs, q, was := ChunksOf(rcvQueue), rcvQueue, user[..];
      NothingMerged(cs, was);
      pos := 0;
      ghost var popped := 0;
      while rcvQueue != []
        invariant popped <= |q| && rcvQueue == q[popped..] && pos <= user.Length
        invariant MessageEnd(cs) == popped + MessageEnd(cs[popped..])
        invariant Merged(user[..], was, cs, popped, pos)
        decreases |rcvQueue|
      {
        var seg := rcvQueue[0];
        NextFragment(q, popped);
        MergedStep(user[..], was, cs, popped, pos, seg.data);
        rcvQueue := rcvQueue[1..];
        CopyInto(user, pos, seg.data);
        pos := pos + |seg.data|;
        popped := popped + 1;
        if seg.frg == 0 {
          break;
        }
      }
      MergedParts(user[..], was, cs, popped, pos);
    }

    /** The buffer starts with the first `n` fragments, which are `pos` bytes, and is otherwise as it was. */
    static ghost predicate Merged(user: seq<byte>, was: seq<byte>, cs: seq<Chunk>, n: nat, pos: nat) {
      n <= |cs| && pos == |Bytes(cs[..n])| <= |was| && user == Bytes(cs[..n]) + was[pos..]
    }

    static lemma NothingMerged(cs: seq<Chunk>, was: seq<byte>)
      ensures Merged(was, was, cs, 0, 0) && cs[0..] == cs && MessageEnd([]) == 0
    {
    }

    static lemma MergedParts(user: seq<byte>, was: seq<byte>, cs: seq<Chunk>, n: nat, pos: nat)
      requires Merged(user, was, cs, n, pos)
      ensures n <= |cs| && pos == |Bytes(cs[..n])| <= |was| && user == Bytes(cs[..n]) + was[pos..]
      ensures cs[|cs|..] == []
    {
    }

    static lemma MergedStep(user: seq<byte>, was: seq<byte>, cs: seq<Chunk>, n: nat, pos: nat, data: seq<byte>)
      requires Merged(user, was, cs, n, pos) && n < |cs|
      requires Bytes(cs[..n + 1]) == Bytes(cs[..n]) + data && |Bytes(cs[..n + 1])| <= |was|
      ensures pos + |data| <= |was| == |user|
      ensures Merged(user[..pos] + data + user[pos + |data|..], was, cs, n + 1, pos + |data|)
    {
      hide Bytes;
      Overwrite(Bytes(cs[..n]), was, pos, data);
    }

    /** Data written behind `front` moves the line to what is still `was`. */
    static lemma Overwrite(front: seq<byte>, was: seq<byte>, pos: nat, data: seq<byte>)
      requires |front| == pos && pos + |data| <= |was|
      ensures var now := front + was[pos..];
              now[..pos] + data + now[pos + |data|..] == front + data + was[pos + |data|..]
    {
      var now := front + was[pos..];
      assert now[..pos] == front;
      assert now[pos + |data|..] == was[pos + |data|..];
    }

    static lemma NextFragment(q: seq<Packet>, i: nat)
      requires i < |q|
      ensures var cs := ChunksOf(q);
              && Bytes(cs[..i + 1]) == Bytes(cs[..i]) + q[i].data && q[i + 1..] == q[i..][1..]
              && MessageEnd(cs[i..]) == (if q[i].frg == 0 then 1 else 1 + MessageEnd(cs[i + 1..]))
              && (MessageEnd(cs) == i + MessageEnd(cs[i..]) ==> |Bytes(cs[..i + 1])| <= |Bytes(cs[..MessageEnd(cs)])|)
    {
      var cs := ChunksOf(q);
      assert cs[i..][0] == ChunkOf(q[i]) && cs[i..][1..] == cs[i + 1..];
      BytesOfNext(cs, i);
      if MessageEnd(cs) == i + MessageEnd(cs[i..]) {
        BytesFit(cs, i + 1);
      }
    }

    /** A prefix of the message is no longer than the message. */
    static lemma BytesFit(cs: seq<Chunk>, n: nat)
      requires n <= MessageEnd(cs)
      ensures |Bytes(cs[..n])| <= |Bytes(cs[..MessageEnd(cs)])|
    {
      var m := MessageEnd(cs);
      assert cs[..m] == cs[..n] + cs[n..m];
      BytesAppend(cs[..n], cs[n..m]);
    }

    static method CopyInto(user: array<byte>, pos: nat, data: seq<byte>)
      requires pos + |data| <= user.Length
      modifies user
      ensures user[..] == old(user[..])[..pos] + data + old(user[..])[pos + |data|..]
    {
      forall i | 0 <= i < |data| {
        user[pos + i] := data[i];
      }
    }

    method ParseData(p: Packet)
      modifies this`rcvNxt, this`rcvQueue, this`rcvBuf
      ensures Receiver() == R.ParseData(old(Receiver()), p, cfg.rcvWnd)
    {
      if Timediff(p.sn, Add32(rcvNxt, cfg.rcvWnd)) >= 0 || Timediff(p.sn, rcvNxt) < 0 {
        return;
      }
      hide Timediff, R.Insert, R.Drain;
      InsertSegment(p);
      MoveAvailable();
    }

    method InsertSegment(p: Packet)
      modifies this`rcvBuf
      ensures rcvBuf == R.Insert(old(rcvBuf), p)
    {
      hide Timediff;
      var repeat := false;
      var newIndex := |rcvBuf|;
      assert rcvBuf[..newIndex] == rcvBuf && rcvBuf[newIndex..] == [];
      while newIndex > 0
        invariant newIndex <= |rcvBuf|
        invariant R.Insert(rcvBuf, p) == R.Insert(rcvBuf[..newIndex], p) + rcvBuf[newIndex..]
      {
        var segment := rcvBuf[newIndex - 1];
        assert rcvBuf[..newIndex][..newIndex - 1] == rcvBuf[..newIndex - 1];
        if segment.sn == p.sn {
          repeat := true;
          break;
        } else if Timediff(p.sn, segment.sn) > 0 {
          break;
        }
        assert [segment] + rcvBuf[newIndex..] == rcvBuf[newIndex - 1..];
        newIndex := newIndex - 1;
      }
      assert repeat ==> rcvBuf[..newIndex] + rcvBuf[newIndex..] == rcvBuf;
      if !repeat {
        rcvBuf := rcvBuf[..newIndex] + [p] + rcvBuf[newIndex..];
      }
    }

    // ---- sending --------------------------------------------------------------

    method Send(data: seq<byte>) returns (r: Result<nat>)
      requires Valid()
      modifies this`sndQueue
      ensures Valid()
      ensures State() == E.SendData(old(State()), data).st && r == E.SendData(old(State()), data).result
    {
      hide S.Send, EncodeAll, Wired, EndInv, Receiver;
      ConfigIsOk(State());
      F.SendKeeps(State(), data);
      r := QueueData(data);
    }

    method QueueData(data: seq<byte>) returns (r: Result<nat>)
      requires cfg.mss > 0
      modifies this`sndQueue
      ensures S.Submission(sndQueue, r) == S.Send(old(sndQueue), data, cfg.mss, cfg.stream)
    {
      hide S.Fragments, S.ExtendLast, S.Extension;
      var rest := data;
      var sentSize := 0;
      NoTail(sndQueue, data, cfg.mss, cfg.stream);
      if cfg.stream && sndQueue != [] {
        sentSize := ExtendTail(data);
        rest := rest[sentSize..];
        if rest == [] {
          return Ok(sentSize);
        }
      }
      var count := if |rest| <= cfg.mss then 1 else (|rest| + cfg.mss - 1) / cfg.mss;
      if count >= E.WND_RCV {
        return Err(UserBufTooBig);
      }
      S.FragmentCountCovers(|rest|, cfg.mss);
      var n := Enqueue(rest, count);
      return Ok(sentSize + n);
    }

    static lemma ConfigIsOk(s: E.State)
      requires EndInv(s)
      ensures E.ConfigOk(s.cfg)
    {
    }

    static lemma NoTail(queue: seq<Chunk>, data: seq<byte>, mss: nat, stream: bool)
      ensures !stream || queue == [] ==>
                S.ExtendLast(queue, data, mss, stream) == queue && S.Extension(queue, data, mss, stream) == 0
    {
    }

    /** In stream mode, fills up the last queued segment. */
    method ExtendTail(data: seq<byte>) returns (extend: nat)
      requires cfg.stream && sndQueue != []
      modifies this`sndQueue
      ensures sndQueue == S.ExtendLast(old(sndQueue), data, cfg.mss, true)
      ensures extend == S.Extension(old(sndQueue), data, cfg.mss, true)
    {
      var n := |sndQueue| - 1;
      var l := |sndQueue[n].data|;
      extend := 0;
      if l < cfg.mss {
        extend := Min(|data|, cfg.mss - l);
        sndQueue := sndQueue[n := Chunk(0, sndQueue[n].data + data[..extend])];
      }
    }

    /** Cuts `data` into `count` segments and queues them. */
    method Enqueue(data: seq<byte>, count: nat) returns (size: nat)
      requires cfg.mss > 0 && count <= 0x100 && count * cfg.mss >= |data|
      modifies this`sndQueue
      ensures sndQueue == old(sndQueue) + S.Fragments(data, cfg.mss, count, cfg.stream) && size == |data|
    {
      hide S.Fragments;
      var rest := data;
      size := 0;
      for i := 0 to count
        invariant size + |rest| == |data| && (count - i) * cfg.mss >= |rest|
        invariant old(sndQueue) + S.Fragments(data, cfg.mss, count, cfg.stream)
               == sndQueue + S.Fragments(rest, cfg.mss, count - i, cfg.stream)
      {
        var n := Min(cfg.mss, |rest|);
        var frg: u8 := if cfg.stream then 0 else count - i - 1;
        FragmentStep(sndQueue, rest, cfg.mss, count - i, cfg.stream);
        sndQueue := sndQueue + [Chunk(frg, rest[..n])];
        rest := rest[n..];
        size := size + n;
      }
      NoFragments(sndQueue, rest, cfg.mss, cfg.stream);
    }

    static lemma FragmentStep(q: seq<Chunk>, rest: seq<byte>, mss: nat, left: nat, stream: bool)
      requires 0 < left <= 0x100 && left * mss >= |rest|
      ensures var n := Min(mss, |rest|);
              && (left - 1) * mss >= |rest| - n
              && q + S.Fragments(rest, mss, left, stream)
                 == q + [Chunk(if stream then 0 else left - 1, rest[..n])] +
                   S.Fragments(rest[n..], mss, left - 1, stream)
    {
      assert left * mss == (left - 1) * mss + mss;
      var n := Min(mss, |rest|);
      Associative(q, [Chunk(if stream then 0 else left - 1, rest[..n])], S.Fragments(rest[n..], mss, left - 1, stream));
    }

    static lemma NoFragments(q: seq<Chunk>, rest: seq<byte>, mss: nat, stream: bool)
      ensures q + S.Fragments(rest, mss, 0, stream) == q
    {
    }

    // ---- acknowledgements -----------------------------------------------------

    method UpdateAck(sample: u32)
      modifies this`rtt
      ensures rtt == Control.UpdateAck(old(rtt), sample, cfg.interval, cfg.minRto)
    {
      if rtt.srtt == 0 {
        rtt := rtt.(srtt := sample, rttval := sample / 2);
      } else {
        var delta := AbsDiff(sample, rtt.srtt);
        rtt := rtt.(rttval := Wrap32(3 * rtt.rttval + delta) / 4);
        rtt := rtt.(srtt := Wrap32(7 * rtt.srtt + sample) / 8);
        if rtt.srtt < 1 {
          rtt := rtt.(srtt := 1);
        }
      }
      var rto := Add32(rtt.srtt, Max(cfg.interval, Wrap32(4 * rtt.rttval)));
      rtt := rtt.(rto := Bound(cfg.minRto, rto, RTO_MAX));
    }

    method ShrinkBuf()
      modifies this`sndUna
      ensures Sender() == S.Shrink(old(Sender()))
    {
      sndUna := if sndBuf != [] then sndBuf[0].sn else sndNxt;
    }

    method ParseUna(una: u32)
      modifies this`sndBuf
      ensures sndBuf == S.ParseUna(old(sndBuf), una)
    {
      hide Timediff;
      while sndBuf != []
        invariant S.ParseUna(sndBuf, una) == S.ParseUna(old(sndBuf), una)
        decreases |sndBuf|
      {
        if Timediff(una, sndBuf[0].sn) > 0 {
          sndBuf := sndBuf[1..];
        } else {
          break;
        }
      }
    }

    method ParseAck(sn: u32)
      modifies this`sndBuf
      ensures Sender() == S.ParseAck(old(Sender()), sn)
    {
      hide Timediff;
      if Timediff(sn, sndUna) < 0 || Timediff(sn, sndNxt) >= 0 {
        return;
      }
      var i := 0;
      assert sndBuf[..0] + S.RemoveSn(sndBuf[0..], sn) == S.RemoveSn(sndBuf, sn);
      while i < |sndBuf|
        invariant i <= |sndBuf| && sndBuf == old(sndBuf)
        invariant S.RemoveSn(sndBuf, sn) == sndBuf[..i] + S.RemoveSn(sndBuf[i..], sn)
      {
        assert sndBuf[i..][1..] == sndBuf[i + 1..];
        if sn == sndBuf[i].sn {
          sndBuf := sndBuf[..i] + sndBuf[i + 1..];
          return;
        } else if sn < sndBuf[i].sn {
          break;
        } else {
          Associative(sndBuf[..i], [sndBuf[i]], S.RemoveSn(sndBuf[i + 1..], sn));
          assert sndBuf[..i] + [sndBuf[i]] == sndBuf[..i + 1];
          i := i + 1;
        }
      }
      assert i == |sndBuf| ==> sndBuf[i..] == [];
      assert sndBuf[..i] + sndBuf[i..] == sndBuf;
    }

    method ParseFastack(sn: u32)
      modifies this`sndBuf
      ensures Sender() == S.ParseFastack(old(Sender()), sn)
    {
      hide Timediff, Bumping;
      if Timediff(sn, sndUna) < 0 || Timediff(sn, sndNxt) >= 0 {
        return;
      }
      ghost var b := sndBuf;
      var i := 0;
      BumpingStarts(b, sn);
      while i < |sndBuf|
        invariant i <= |sndBuf| && Bumping(sndBuf, b, i, sn)
      {
        BumpingGoesOn(sndBuf, b, i, sn);
        if Timediff(sn, sndBuf[i].sn) < 0 {
          return;
        } else if sn != sndBuf[i].sn {
          sndBuf := sndBuf[i := sndBuf[i].(fastack := Add32(sndBuf[i].fastack, 1))];
        }
        i := i + 1;
      }
      BumpingEnds(sndBuf, b, sn);
    }

    /** The loop has passed the first `i` segments of `b`; `cur` is the buffer it leaves so far. */
    static ghost predicate Bumping(cur: seq<S.Segment>, b: seq<S.Segment>, i: nat, sn: u32) {
      i <= |cur| == |b| && cur[i..] == b[i..] && S.BumpFastack(b, sn) == cur[..i] + S.BumpFastack(b[i..], sn)
    }

    static lemma BumpingStarts(b: seq<S.Segment>, sn: u32)
      ensures Bumping(b, b, 0, sn)
    {
      hide Timediff;
      assert b[0..] == b;
      assert b[..0] + S.BumpFastack(b, sn) == S.BumpFastack(b, sn);
    }

    static lemma BumpingEnds(cur: seq<S.Segment>, b: seq<S.Segment>, sn: u32)
      requires Bumping(cur, b, |cur|, sn)
      ensures S.BumpFastack(b, sn) == cur
    {
      hide Timediff;
      assert b[|cur|..] == [] && cur[..|cur|] == cur;
    }

    static lemma BumpingGoesOn(cur: seq<S.Segment>, b: seq<S.Segment>, i: nat, sn: u32)
      requires Bumping(cur, b, i, sn) && i < |cur|
      ensures if Timediff(sn, cur[i].sn) < 0 then S.BumpFastack(b, sn) == cur
              else Bumping(if sn != cur[i].sn then cur[i := cur[i].(fastack := Add32(cur[i].fastack, 1))] else cur, b,
                i + 1, sn)
    {
      hide Timediff, S.BumpFastack;
      assert cur[i] == cur[i..][0] == b[i];
      BumpNext(b, i, sn);
      if Timediff(sn, cur[i].sn) < 0 {
        assert cur[..i] + cur[i..] == cur;
      } else {
        var seg := if sn != cur[i].sn then cur[i].(fastack := Add32(cur[i].fastack, 1)) else cur[i];
        var next := cur[i := seg];
        assert next[i + 1..] == cur[i..][1..] == b[i + 1..];
        assert next[..i + 1] == cur[..i] + [seg];
        Associative(cur[..i], [seg], S.BumpFastack(b[i + 1..], sn));
        assert sn == cur[i].sn ==> next == cur;
      }
    }

    static lemma BumpNext(b: seq<S.Segment>, i: nat, sn: u32)
      requires i < |b|
      ensures S.BumpFastack(b[i..], sn) ==
              if Timediff(sn, b[i].sn) < 0 then b[i..]
              else
                var seg := if sn != b[i].sn then b[i].(fastack := Add32(b[i].fastack, 1)) else b[i];
                [seg] + S.BumpFastack(b[i + 1..], sn)
    {
      hide Timediff;
      assert b[i..][1..] == b[i + 1..];
    }

    method AckPush(sn: u32, ts: u32)
      modifies this`acklist
      ensures acklist == old(acklist) + [E.Ack(sn, ts)]
    {
      acklist := acklist + [E.Ack(sn, ts)];
    }

    // ---- input ----------------------------------------------------------------

    method TakeHeader(p: Packet)
      modifies this`rmtWnd, this`sndBuf, this`sndUna
      ensures State() == E.TakeHeader(old(State()), p)
    {
      hide S.ParseUna, S.Shrink, Receiver;
      rmtWnd := p.wnd;
      ParseUna(p.una);
      ShrinkBuf();
    }

    method TakeAck(p: Packet)
      modifies this`rtt, this`sndBuf, this`sndUna
      ensures State() == E.TakeAck(old(State()), p)
    {
      hide S.ParseAck, S.Shrink, Receiver, Control.UpdateAck, Timediff, Sender;
      var sample := Timediff(clock.current, p.ts);
      if sample >= 0 {
        UpdateAck(sample);
      }
      ParseAck(p.sn);
      ShrinkBuf();
    }

    method TakePush(p: Packet)
      modifies this`acklist, this`rcvNxt, this`rcvQueue, this`rcvBuf
      ensures State() == E.TakePush(old(State()), p)
    {
      hide R.ParseData, Sender, Timediff, Add32;
      if Timediff(p.sn, Add32(rcvNxt, cfg.rcvWnd)) < 0 {
        AckPush(p.sn, p.ts);
        if Timediff(p.sn, rcvNxt) >= 0 {
          ParseData(p);
        }
      }
    }

    /** What `input` does with one segment; `flag` and `maxAck` are its local record of acknowledgements. */
    method TakeSegment(p: Packet, flag: bool, maxAck: u32) returns (flag': bool, maxAck': u32)
      requires KnownCmd(p.cmd)
      modifies this`rmtWnd, this`sndBuf, this`sndUna, this`rtt, this`acklist, this`rcvNxt, this`rcvQueue, this`rcvBuf,
               this`probe
      ensures E.Inflow(State(), flag', maxAck') == E.InputOne(E.Inflow(old(State()), flag, maxAck), p)
    {
      hide E.TakeHeader, E.TakeAck, E.TakePush, Sender, Receiver, Timediff;
      flag', maxAck' := flag, maxAck;
      TakeHeader(p);
      if p.cmd == CMD_ACK {
        TakeAck(p);
        if !flag {
          flag', maxAck' := true, p.sn;
        } else if Timediff(p.sn, maxAck) > 0 {
          maxAck' := p.sn;
        }
      } else if p.cmd == CMD_PUSH {
        TakePush(p);
      } else if p.cmd == CMD_WASK {
        probe := probe.(tell := true);
      }
    }

    static lemma HeaderAt(b: seq<byte>, pos: nat)
      requires pos + OVERHEAD <= |b|
      ensures ReadHeader(b[pos..]) ==
              (Packet(Get32(b, pos), b[pos + 4], b[pos + 5], Get16(b, pos + 6), Get32(b, pos + 8), Get32(b, pos + 12),
                Get32(b, pos + 16), []),
               Get32(b, pos + 20))
    {
    }

    static lemma NextPacket(b: seq<byte>, pos: nat, len: nat)
      requires pos + OVERHEAD + len <= |b|
      ensures b[pos..][OVERHEAD..][..len] == b[pos + OVERHEAD..pos + OVERHEAD + len]
      ensures b[pos..][OVERHEAD..][len..] == b[pos + OVERHEAD + len..]
    {
    }

    /** Reads the segment at `pos`. The first segment can set the conversation when it is awaited. */
    method ReadSegment(b: seq<byte>, pos: nat) returns (r: Result<Packet>)
      requires pos + OVERHEAD <= |b|
      modifies this`conv, this`inputConv
      ensures match r
              case Err(e) => Parse(b[pos..], old(conv), old(inputConv)) == Parsed([], conv, inputConv, Failed(e))
              case Ok(p) =>
                && KnownCmd(p.cmd) && pos + EncodedLen(p) <= |b|
                && var rest := Parse(b[pos + EncodedLen(p)..], conv, inputConv);
                Parse(b[pos..], old(conv), old(inputConv)) == rest.(packets := [p] + rest.packets)
    {
      hide Get16, Get32, ReadHeader;
      HeaderAt(b, pos);
      var conv := Get32(b, pos);
      if conv != this.conv {
        if inputConv {
          this.conv := conv;
          inputConv := false;
        } else {
          return Err(ConvInconsistent(this.conv, conv));
        }
      }
      var cmd, frg, wnd := b[pos + 4], b[pos + 5], Get16(b, pos + 6);
      var ts, sn, una, len := Get32(b, pos + 8), Get32(b, pos + 12), Get32(b, pos + 16), Get32(b, pos + 20);
      if |b| - pos - OVERHEAD < len {
        return Err(InvalidSegmentDataSize(len, |b| - pos - OVERHEAD));
      }
      if cmd != CMD_PUSH && cmd != CMD_ACK && cmd != CMD_WASK && cmd != CMD_WINS {
        return Err(UnsupportedCmd(cmd));
      }
      NextPacket(b, pos, len);
      return Ok(Packet(conv, cmd, frg, wnd, ts, sn, una, b[pos + OVERHEAD..pos + OVERHEAD + len]));
    }

    /** Growth of the congestion window once new data has been acknowledged. */
    method GrowWindow(oldUna: u32)
      requires cfg.mss > 0
      modifies this`cong
      ensures cong == if sndUna > oldUna then Grow(old(cong), rmtWnd, cfg.mss) else old(cong)
    {
      hide Avoid, Wrap32, Add32;
      if sndUna > oldUna && cong.cwnd < rmtWnd {
        if cong.cwnd < cong.ssthresh {
          cong := cong.(cwnd := cong.cwnd + 1, incr := Add32(cong.incr, cfg.mss));
        } else {
          AvoidCongestion();
        }
        if cong.cwnd > rmtWnd {
          cong := cong.(cwnd := rmtWnd, incr := Wrap32(rmtWnd * cfg.mss));
        }
      }
    }

    method AvoidCongestion()
      requires cfg.mss > 0
      modifies this`cong
      ensures cong == Avoid(old(cong), cfg.mss)
    {
      hide Avoid, Portion, Product, Wrap16, Add32;
      var mss := cfg.mss;
      AvoidIs(cong, mss);
      if cong.incr < mss {
        cong := cong.(incr := mss);
      }
      cong := cong.(incr := Add32(cong.incr, Portion(Product(mss, mss), cong.incr) + mss / 16));
      if Product(Wrap16(cong.cwnd + 1), mss) <= cong.incr {
        cong := cong.(cwnd := Wrap16(cong.cwnd + 1));
      }
    }

    /** `u32` multiplication. */
    static function Product(a: u32, b: u32): u32 { Wrap32(a * b) }

    static lemma AvoidIs(c: Congestion, mss: u32)
      requires mss > 0
      ensures var base := Max(c.incr, mss);
              Avoid(c, mss) == Advance(c, base, Portion(Product(mss, mss), base) + mss / 16,
                Product(Wrap16(c.cwnd + 1), mss))
    {
      hide Portion, Wrap32, Wrap16, Advance;
    }

    /** The conversation can change on the way without a difference to anything else. */
    static lemma InputOneIgnoresConv(i: E.Inflow, p: Packet, c: u32, w: bool)
      ensures E.InputOne(i.(st := i.st.(conv := c, inputConv := w)), p)
              == var j := E.InputOne(i, p); j.(st := j.st.(conv := c, inputConv := w))
    {
      hide S.ParseUna, S.ParseAck, S.Shrink, Control.UpdateAck, R.ParseData, Timediff, Add32;
    }

    static lemma InputAllSnoc(i: E.Inflow, ps: Datagram, p: Packet)
      ensures E.InputAll(i, ps + [p]) == E.InputOne(E.InputAll(i, ps), p)
    {
      assert (ps + [p])[..|ps|] == ps;
    }

    /** Where the parsing loop stands: `done` are the segments taken so far, `b[pos..]` is still to be parsed. */
    ghost predicate Midway(s: E.State, b: seq<byte>, done: Datagram, pos: nat, flag: bool, maxAck: u32)
      reads this
    {
      && pos <= |b|
      && (var i := E.InputPackets(s, done);
          E.Inflow(State(), flag, maxAck) == i.(st := i.st.(conv := conv, inputConv := inputConv)))
      && (var rest := Parse(b[pos..], conv, inputConv);
          Parse(b, s.conv, s.inputConv) == rest.(packets := done + rest.packets))
    }

    lemma AtStart(b: seq<byte>)
      ensures Midway(State(), b, [], 0, false, 0)
    {
      hide Parse, Sender, Receiver;
      assert b[0..] == b;
      var r := Parse(b, conv, inputConv);
      assert [] + r.packets == r.packets;
    }

    /** One turn of the loop. */
    method TakeNext(ghost s: E.State, b: seq<byte>, ghost done: Datagram, pos: nat, flag: bool, maxAck: u32)
        returns (r: Result<nat>, flag': bool, maxAck': u32, ghost more: Datagram)
      requires Midway(s, b, done, pos, flag, maxAck) && pos + OVERHEAD <= |b|
      modifies this`conv, this`inputConv, this`rmtWnd, this`sndBuf, this`sndUna, this`rtt, this`acklist, this`rcvNxt,
               this`rcvQueue, this`rcvBuf, this`probe
      ensures r.Ok? ==> r.value >= pos + OVERHEAD && Midway(s, b, more, r.value, flag', maxAck')
      ensures r.Err? ==>
                && Parse(b, s.conv, s.inputConv) == Parsed(done, conv, inputConv, Failed(r.error))
                && State() == E.InputPackets(s, done).st.(conv := conv, inputConv := inputConv)
    {
      hide Parse, E.InputOne, E.InputAll, Sender, Receiver;
      flag', maxAck', more := flag, maxAck, done;
      var p := ReadSegment(b, pos);
      if p.Err? {
        return Err(p.error), flag, maxAck, done;
      }
      more := done + [p.value];
      InputOneIgnoresConv(E.InputPackets(s, done), p.value, conv, inputConv);
      InputAllSnoc(E.Inflow(s, false, 0), done, p.value);
      Associative(done, [p.value], Parse(b[pos + EncodedLen(p.value)..], conv, inputConv).packets);
      flag', maxAck' := TakeSegment(p.value, flag, maxAck);
      r := Ok(pos + EncodedLen(p.value));
    }

    /** With `decode` and fewer than four bytes the original indexes out of bounds; here the call ends there. */
    method Input(data: array<byte>, decode: bool) returns (r: Result<nat>)
      requires Valid() && ReceiveRoom(State(), data.Length)
      modifies this`conv, this`inputConv, this`rmtWnd, this`sndBuf, this`sndUna, this`rtt, this`acklist, this`rcvNxt,
               this`rcvQueue, this`rcvBuf, this`probe, this`cong, data
      ensures Valid()
      ensures data[..] == old(if decode && data.Length >= 4 then Seal(output.key, data[..]) else data[..])
      ensures State() == E.Intake(old(State()), output.key, old(data[..]), decode).st
      ensures r == E.Intake(old(State()), output.key, old(data[..]), decode).result
    {
      hide EndInv, EncodeAll, Wired, Encode, Mask, E.Input, Sender, Receiver, ReceiveRoom;
      ConfigIsOk(State());
      if decode {
        if data.Length < 4 {
          return Err(Panic);
        }
        output.Decode(data, 4);
        assert data[..] == data[..4] + data[4..];
      }
      InputKeeps(State(), data[..]);
      r := InputBytes(data[..]);
    }

    method InputBytes(b: seq<byte>) returns (r: Result<nat>)
      requires cfg.mss > 0
      modifies this`conv, this`inputConv, this`rmtWnd, this`sndBuf, this`sndUna, this`rtt, this`acklist, this`rcvNxt,
               this`rcvQueue, this`rcvBuf, this`probe, this`cong
      ensures State() == E.Input(old(State()), b).st && r == E.Input(old(State()), b).result
    {
      hide Parse, E.InputPackets, E.Conclude, Receiver, Midway;
      if |b| < OVERHEAD {
        return Err(InvalidSegmentSize(|b|));
      }
      ghost var s := State();
      var flag, maxAck, pos, oldUna := false, 0, 0, sndUna;
      ghost var done: Datagram := [];
      AtStart(b);
      while |b| - pos >= OVERHEAD
        invariant Midway(s, b, done, pos, flag, maxAck)
      {
        var next;
        next, flag, maxAck, done := TakeNext(s, b, done, pos, flag, maxAck);
        if next.Err? {
          return Err(next.error);
        }
        pos := next.value;
      }
      AtEnd(s, b, done, pos, flag, maxAck);
      ConcludeInput(flag, maxAck, oldUna);
      return Ok(pos);
    }

    lemma AtEnd(s: E.State, b: seq<byte>, done: Datagram, pos: nat, flag: bool, maxAck: u32)
      requires Midway(s, b, done, pos, flag, maxAck) && |b| - pos < OVERHEAD
      ensures pos <= |b| && Parse(b, s.conv, s.inputConv) == Parsed(done, conv, inputConv, Consumed(|b| - pos))
      ensures var i := E.InputPackets(s, done);
              E.Inflow(State(), flag, maxAck) == i.(st := i.st.(conv := conv, inputConv := inputConv))
    {
      hide ReadHeader, Sender, Receiver, E.InputPackets;
      assert done + [] == done;
    }

    method ConcludeInput(flag: bool, maxAck: u32, oldUna: u32)
      requires cfg.mss > 0
      modifies this`sndBuf, this`cong
      ensures State() == E.Conclude(E.Inflow(old(State()), flag, maxAck), oldUna)
    {
      hide S.ParseFastack, Grow, Receiver;
      if flag {
        ParseFastack(maxAck);
      }
      GrowWindow(oldUna);
    }

    // ---- output ---------------------------------------------------------------

    /** The output side since datagram `base`. */
    ghost function Out(base: nat, ok: bool): P.Out
      requires base <= |emitted|
      reads this`packed, this`emitted, output
    {
      P.Out(packed, emitted[base..], output.room, ok)
    }

    static lemma SealedIsOnWire(key: Option<Key>, d: Datagram)
      requires d != []
      ensures |EncodeAll(d)| >= 4 && Seal(key, EncodeAll(d)) == OnWire(key, d)
    {
    }

    static lemma EncodeAllSnoc(d: Datagram, p: Packet)
      ensures EncodeAll(d + [p]) == EncodeAll(d) + Encode(p)
    {
      hide Encode;
      EncodeAllAppend(d, [p]);
      assert EncodeAll([p]) == Encode(p) + EncodeAll([]);
    }

    method SendBuffer() returns (ok: bool)
      requires Encoded() && packed != []
      modifies this`buf, this`packed, this`emitted, output
      ensures Encoded() && ok == (old(output.room) > 0) && output.room + |emitted| == old(output.room + |emitted|)
      ensures if ok then packed == [] && emitted == old(emitted) + [old(packed)] && output.room == old(output.room) - 1
              else packed == old(packed) && emitted == old(emitted) && output.room == old(output.room)
    {
      hide Wired, Seal, OnWire;
      SealedIsOnWire(output.key, packed);
      WiredSnoc(output.key, emitted, packed);
      ok := output.Send(buf);
      if ok {
        emitted := emitted + [packed];
        packed := [];
        buf := [];
      }
    }

    /** Appends a segment to the buffer, which is sent first when it would get too large. */
    method Put(p: Packet, ghost base: nat) returns (ok: bool)
      requires Encoded() && base <= |emitted| && EncodedLen(p) <= cfg.mtu
      modifies this`buf, this`packed, this`emitted, output
      ensures Encoded() && base <= |emitted| && emitted[..base] == old(emitted)[..base]
      ensures Out(base, ok) == P.Put(old(Out(base, true)), p, cfg.mtu)
    {
      hide Wired, EncodeAll, Encode, P.Size;
      P.SizeIsLength(packed);
      if |buf| + EncodedLen(p) > cfg.mtu {
        NotEmpty(packed);
        ok := SendBuffer();
        if !ok {
          return;
        }
      }
      EncodeAllSnoc(packed, p);
      buf := buf + Encode(p);
      packed := packed + [p];
      ok := true;
    }

    static lemma NotEmpty(d: Datagram)
      ensures |EncodeAll(d)| > 0 ==> d != []
    {
    }

    method SendRest(ghost base: nat) returns (ok: bool)
      requires Encoded() && base <= |emitted|
      modifies this`buf, this`packed, this`emitted, output
      ensures Encoded() && base <= |emitted| && emitted[..base] == old(emitted)[..base]
      ensures Out(base, ok) == P.Finish(old(Out(base, true)))
    {
      hide Wired, Encode;
      ok := true;
      if buf != [] {
        ok := SendBuffer();
      }
    }

    // ---- flush: acknowledgements and probes -------------------------------------

    method WndUnused() returns (n: u16)
      ensures n == R.WndUnused(Receiver(), cfg.rcvWnd)
    {
      n := if |rcvQueue| < cfg.rcvWnd then cfg.rcvWnd - |rcvQueue| else 0;
    }

    /** The packets of the pending acknowledgements, all with the header of `segment`. */
    static ghost function AckRun(segment: Packet, acks: seq<E.Ack>): (ps: seq<Packet>)
      ensures |ps| == |acks|
    {
      seq(|acks|, i requires 0 <= i < |acks| => segment.(sn := acks[i].sn, ts := acks[i].ts))
    }

    static lemma PutAllNext(o: P.Out, ps: seq<Packet>, i: nat, mtu: nat)
      requires i < |ps|
      ensures P.PutAll(o, ps[..i + 1], mtu) == P.Put(P.PutAll(o, ps[..i], mtu), ps[i], mtu)
    {
      assert ps[..i + 1][..i] == ps[..i];
    }

    static lemma PutAllStops(o: P.Out, ps: seq<Packet>, i: nat, mtu: nat)
      requires i <= |ps| && (i == |ps| || !P.PutAll(o, ps[..i], mtu).ok)
      ensures P.PutAll(o, ps, mtu) == P.PutAll(o, ps[..i], mtu)
    {
      assert ps == ps[..i] + ps[i..];
      P.PutAllAppend(o, ps[..i], ps[i..], mtu);
      F.PutAllSticks(P.PutAll(o, ps[..i], mtu), ps[i..], mtu);
    }

    method FlushAcks(segment: Packet, ghost base: nat) returns (ok: bool, last: Packet)
      requires Encoded() && base <= |emitted| && segment.data == [] && cfg.mtu >= OVERHEAD
      modifies this`acklist, this`buf, this`packed, this`emitted, output
      ensures Encoded() && base <= |emitted| && emitted[..base] == old(emitted)[..base]
      ensures Out(base, ok) == P.PutAll(old(Out(base, true)), AckRun(segment, old(acklist)), cfg.mtu)
      ensures acklist == (if ok then [] else old(acklist)) && State() == old(State()).(acks := acklist, buf := packed)
      ensures ok ==> last == if old(acklist) == [] then segment else AckRun(segment, old(acklist))[|old(acklist)| - 1]
    {
      hide Encoded, P.Put, Out, Sender, Receiver;
      ghost var o, ps := Out(base, true), AckRun(segment, acklist);
      last := segment;
      for i := 0 to |acklist|
        invariant acklist == old(acklist) && Encoded() && base <= |emitted| && emitted[..base] == old(emitted)[..base]
        invariant Out(base, true) == P.PutAll(o, ps[..i], cfg.mtu)
        invariant last == if i == 0 then segment else ps[i - 1]
      {
        last := last.(sn := acklist[i].sn, ts := acklist[i].ts);
        ok := Put(last, base);
        PutAllNext(o, ps, i, cfg.mtu);
        if !ok {
          OutFails(base);
          PutAllStops(o, ps, i + 1, cfg.mtu);
          return;
        }
      }
      PutAllStops(o, ps, |ps|, cfg.mtu);
      acklist := [];
      ok := true;
    }

    lemma OutFails(base: nat)
      requires base <= |emitted|
      ensures !Out(base, false).ok
    {
    }

    method ProbeWndSize()
      modifies this`probe
      ensures State() == old(State()).(probe := E.ProbeTimer(old(probe), rmtWnd, clock.current))
    {
      hide Timediff, Add32, Sender, Receiver;
      if rmtWnd == 0 {
        if probe.wait == 0 {
          probe := probe.(wait := E.PROBE_INIT);
          probe := probe.(ts := Add32(clock.current, probe.wait));
        } else if Timediff(clock.current, probe.ts) >= 0 {
          if probe.wait < E.PROBE_INIT {
            probe := probe.(wait := E.PROBE_INIT);
          }
          probe := probe.(wait := Add32(probe.wait, probe.wait / 2));
          if probe.wait > E.PROBE_LIMIT {
            probe := probe.(wait := E.PROBE_LIMIT);
          }
          probe := probe.(ts := Add32(clock.current, probe.wait), ask := true);
        }
      } else {
        probe := probe.(ts := 0, wait := 0);
      }
    }

    static ghost function ProbeRun(segment: Packet, probe: E.Probe): seq<Packet> {
      (if probe.ask then [segment.(cmd := CMD_WASK)] else []) + (if probe.tell then [segment.(cmd := CMD_WINS)] else [])
    }

    static lemma PutAllSmall(o: P.Out, p: Packet, q: Packet, mtu: nat)
      ensures P.PutAll(o, [], mtu) == o
      ensures P.PutAll(o, [p], mtu) == P.Put(o, p, mtu)
      ensures P.PutAll(o, [p, q], mtu) == P.Put(P.Put(o, p, mtu), q, mtu)
      ensures !o.ok ==> P.Put(o, q, mtu) == o
    {
      assert [p, q][..1] == [p] && [p][..0] == [];
    }

    static lemma ProbeRunIs(segment: Packet, probe: E.Probe)
      ensures ProbeRun(segment, probe) ==
              if probe.ask && probe.tell then [segment.(cmd := CMD_WASK), segment.(cmd := CMD_WINS)]
              else if probe.ask then [segment.(cmd := CMD_WASK)]
              else if probe.tell then [segment.(cmd := CMD_WINS)]
              else []
    {
    }

    method FlushProbeCommands(segment: Packet, ghost base: nat) returns (ok: bool)
      requires Encoded() && base <= |emitted| && segment.data == [] && cfg.mtu >= OVERHEAD
      modifies this`probe, this`buf, this`packed, this`emitted, output
      ensures Encoded() && base <= |emitted| && emitted[..base] == old(emitted)[..base]
      ensures Out(base, ok) == P.PutAll(old(Out(base, true)), ProbeRun(segment, old(probe)), cfg.mtu)
      ensures probe == if ok then old(probe).(ask := false, tell := false) else old(probe)
      ensures State() == old(State()).(probe := probe, buf := packed)
    {
      hide Encoded, P.Put, P.PutAll, Out, ProbeRun, Sender, Receiver;
      ghost var o, ask, tell := Out(base, true), segment.(cmd := CMD_WASK), segment.(cmd := CMD_WINS);
      ProbeRunIs(segment, probe);
      PutAllSmall(o, ask, tell, cfg.mtu);
      PutAllSmall(o, tell, tell, cfg.mtu);
      if probe.ask {
        ok := Put(segment.(cmd := CMD_WASK), base);
        if !ok {
          OutFails(base);
          PutAllSmall(Out(base, false), ask, tell, cfg.mtu);
          return;
        }
      }
      if probe.tell {
        ok := Put(segment.(cmd := CMD_WINS), base);
        if !ok {
          return;
        }
      }
      probe := probe.(ask := false, tell := false);
      ok := true;
    }

    // ---- flush: data ------------------------------------------------------------

    /** Numbers queued segments while the window is open. */
    method AdmitSegments(cwnd: u16, h: S.Stamp)
      modifies this`sndNxt, this`sndQueue, this`sndBuf
      ensures Sender() == S.Admit(old(Sender()), cwnd, h)
    {
      hide Timediff, Add32, S.Admitted;
      while Timediff(sndNxt, Add32(sndUna, cwnd)) < 0
        invariant S.Admit(Sender(), cwnd, h) == S.Admit(old(Sender()), cwnd, h)
        decreases |sndQueue|
      {
        if sndQueue == [] {
          break;
        }
        var segment := S.Admitted(h, sndNxt, sndQueue[0]);
        sndQueue := sndQueue[1..];
        sndNxt := Add32(sndNxt, 1);
        sndBuf := sndBuf + [segment];
      }
    }

    /** Decides whether a segment is due and, if so, restarts its timer. */
    method Restamp(e: P.Round, i: nat) returns (due: P.Due)
      requires i < |sndBuf|
      modifies this`sndBuf, this`xmit
      ensures due == P.DueOf(e, old(sndBuf[i])) && sndBuf == old(sndBuf)[i := P.Restamped(e, old(sndBuf[i]))]
      ensures xmit == if due.Timeout? then Add32(old(xmit), 1) else old(xmit)
    {
      hide Timediff, Add32;
      var s := sndBuf[i];
      if s.xmit == 0 {
        due := P.First;
        var rtomin := if !e.nodelay then e.rto / 8 else 0;
        s := s.(xmit := Add32(s.xmit, 1), rto := e.rto);
        s := s.(resendts := Add32(Add32(e.current, s.rto), rtomin));
      } else if Timediff(e.current, s.resendts) >= 0 {
        due := P.Timeout;
        xmit := Add32(xmit, 1);
        s := s.(xmit := Add32(s.xmit, 1), rto := Add32(s.rto, if !e.nodelay then e.rto else e.rto / 2));
        s := s.(resendts := Add32(e.current, s.rto));
      } else if s.fastack >= e.resent {
        due := P.Early;
        s := s.(xmit := Add32(s.xmit, 1), fastack := 0);
        s := s.(resendts := Add32(e.current, s.rto));
      } else {
        due := P.NotDue;
      }
      if !due.NotDue? {
        s := s.(ts := e.current, wnd := e.wnd, una := e.una);
      }
      sndBuf := sndBuf[i := s];
    }

    /** One turn of the transmission loop, `lost` and `change` being its local record. */
    method TransmitOne(e: P.Round, i: nat, lost: bool, change: nat, ghost base: nat)
         returns (lost': bool, change': nat, ok: bool)
      requires i < |sndBuf| && Encoded() && base <= |emitted|
      requires e.mtu == cfg.mtu && e.deadLink == cfg.deadLink && OVERHEAD + |sndBuf[i].data| <= cfg.mtu
      modifies this`sndBuf, this`xmit, this`dead, this`buf, this`packed, this`emitted, output
      ensures Encoded() && base <= |emitted| && emitted[..base] == old(emitted)[..base]
      ensures |sndBuf| == old(|sndBuf|) && sndBuf[i + 1..] == old(sndBuf)[i + 1..]
      ensures P.Tx(sndBuf[..i + 1], Out(base, ok), lost', change', xmit, dead)
           == P.TxOne(e, old(P.Tx(sndBuf[..i], Out(base, true), lost, change, xmit, dead)), old(sndBuf[i]))
    {
      hide Encoded, P.Put, P.Restamped, P.DueOf, P.SameSegment;
      ghost var front := sndBuf[..i];
      P.RestampedIsSame(e, sndBuf[i]);
      SameSize(sndBuf[i], P.Restamped(e, sndBuf[i]));
      var due := Restamp(e, i);
      assert sndBuf[..i + 1] == front + [sndBuf[i]] && sndBuf[i + 1..] == old(sndBuf)[i + 1..];
      lost' := lost || due.Timeout?;
      change' := if due.Early? then change + 1 else change;
      ok := true;
      if !due.NotDue? {
        ok := Put(S.PacketOf(sndBuf[i]), base);
        if ok && sndBuf[i].xmit >= cfg.deadLink {
          dead := true;
        }
      }
    }

    static lemma SameSize(a: S.Segment, b: S.Segment)
      requires P.SameSegment(a, b)
      ensures |a.data| == |b.data| == |S.PacketOf(b).data|
    {
    }

    static lemma TxAllNext(e: P.Round, t: P.Tx, segs: seq<S.Segment>, i: nat)
      requires i < |segs|
      ensures P.TxAll(e, t, segs[..i + 1]) == P.TxOne(e, P.TxAll(e, t, segs[..i]), segs[i])
    {
      assert segs[..i + 1][..i] == segs[..i];
    }

    static lemma SliceSnoc<T>(s: seq<T>, i: nat)
      requires i < |s|
      ensures s[..|s| - 1][i..] + [s[|s| - 1]] == s[i..]
    {
    }

    /** After a failed send the rest of the buffer is left alone. */
    static lemma {:induction false} TxAllStops(e: P.Round, t: P.Tx, segs: seq<S.Segment>, i: nat)
      requires i <= |segs| && !P.TxAll(e, t, segs[..i]).out.ok
      ensures var r := P.TxAll(e, t, segs[..i]); P.TxAll(e, t, segs) == r.(done := r.done + segs[i..])
    {
      hide P.Put, P.Restamped, P.DueOf;
      var n := |segs| - 1;
      if i == |segs| {
        assert segs[..i] == segs;
        assert P.TxAll(e, t, segs).done + segs[i..] == P.TxAll(e, t, segs).done;
      } else {
        assert segs[..n][..i] == segs[..i];
        TxAllStops(e, t, segs[..n], i);
        SliceSnoc(segs, i);
        var r := P.TxAll(e, t, segs[..i]);
        Associative(r.done, segs[..n][i..], [segs[n]]);
      }
    }

    method TransmitSegments(e: P.Round, ghost base: nat) returns (lost: bool, change: nat, ok: bool)
      requires Encoded() && base <= |emitted|
      requires e.mtu == cfg.mtu && e.deadLink == cfg.deadLink && cfg.mtu == OVERHEAD + cfg.mss && Light(sndBuf, cfg.mss)
      modifies this`sndBuf, this`xmit, this`dead, this`buf, this`packed, this`emitted, output
      ensures Encoded() && base <= |emitted| && emitted[..base] == old(emitted)[..base]
      ensures P.Tx(sndBuf, Out(base, ok), lost, change, xmit, dead)
           == P.TxAll(e, old(P.Tx([], Out(base, true), false, 0, xmit, dead)), old(sndBuf))
    {
      hide Encoded, P.TxOne;
      ghost var t, segs := P.Tx([], Out(base, true), false, 0, xmit, dead), sndBuf;
      lost, change, ok := false, 0, true;
      var i := 0;
      assert segs[0..] == segs;
      while i < |sndBuf|
        invariant i <= |sndBuf| == |segs| && sndBuf[i..] == segs[i..]
        invariant Encoded() && base <= |emitted| && emitted[..base] == old(emitted)[..base]
        invariant P.Tx(sndBuf[..i], Out(base, true), lost, change, xmit, dead) == P.TxAll(e, t, segs[..i])
      {
        assert sndBuf[i] == sndBuf[i..][0] == segs[i];
        lost, change, ok := TransmitOne(e, i, lost, change, base);
        assert sndBuf[i + 1..] == segs[i + 1..];
        TxAllNext(e, t, segs, i);
        i := i + 1;
        if !ok {
          TxAllStops(e, t, segs, i);
          SplitAt(sndBuf, i);
          return;
        }
      }
      assert sndBuf[..i] == sndBuf && segs[..i] == segs;
      ok := true;
    }

    /** What a completed flush makes of the congestion window; `used` is the window it worked with. */
    method SettleWindow(fast: bool, lost: bool, resent: u32, used: u16)
      modifies this`cong
      ensures cong == Settle(old(cong), fast, lost, Wrap32(sndNxt - sndUna), resent, used, cfg.mss)
    {
      if fast {
        var inflight := Wrap32(sndNxt - sndUna);
        cong := cong.(ssthresh := Wrap16(inflight) / 2);
        if cong.ssthresh < THRESH_MIN {
          cong := cong.(ssthresh := THRESH_MIN);
        }
        cong := cong.(cwnd := Wrap16(cong.ssthresh + Wrap16(resent)));
        cong := cong.(incr := Wrap32(cong.cwnd * cfg.mss));
      }
      if lost {
        cong := cong.(ssthresh := used / 2);
        if cong.ssthresh < THRESH_MIN {
          cong := cong.(ssthresh := THRESH_MIN);
        }
        cong := cong.(cwnd := 1, incr := cfg.mss);
      }
      if cong.cwnd < 1 {
        cong := cong.(cwnd := 1, incr := cfg.mss);
      }
    }

    /** Opens the round of a flush: admits what the window `cwnd` allows, and fixes what the loop works with. */
    method OpenRound(wnd: u16) returns (e: P.Round, cwnd: u16)
      requires wnd == R.WndUnused(Receiver(), cfg.rcvWnd)
      modifies this`sndNxt, this`sndQueue, this`sndBuf
      ensures e == E.RoundOf(old(State())) && cwnd == E.UsedWindow(old(State()))
      ensures State() == old(State()).(snd := E.Admission(old(State())))
    {
      hide S.Admit, R.WndUnused;
      cwnd := Min(cfg.sndWnd, rmtWnd);
      if !cfg.nocwnd {
        cwnd := Min(cong.cwnd, cwnd);
      }
      AdmitSegments(cwnd, S.Stamp(conv, wnd, clock.current, rcvNxt, rtt.rto));
      var resent := if cfg.fastresend > 0 then cfg.fastresend else TWO_32 - 1;
      e := P.Round(clock.current, rtt.rto, cfg.nodelay, resent, wnd, rcvNxt, cfg.mtu, cfg.deadLink);
    }

    lemma SenderParts()
      ensures Sender() == S.Sender(sndUna, sndNxt, sndQueue, sndBuf) && State().snd == Sender()
    {
    }

    /** Transmits what is due and sends what is left in the buffer. */
    method TransmitDue(e: P.Round, ghost base: nat) returns (lost: bool, change: nat, ok: bool)
      requires Encoded() && base <= |emitted|
      requires e.mtu == cfg.mtu && e.deadLink == cfg.deadLink && cfg.mtu == OVERHEAD + cfg.mss && Light(sndBuf, cfg.mss)
      modifies this`sndBuf, this`xmit, this`dead, this`buf, this`packed, this`emitted, output
      ensures Encoded() && base <= |emitted| && emitted[..base] == old(emitted)[..base]
      ensures var tx := P.TxAll(e, old(P.Tx([], Out(base, true), false, 0, xmit, dead)), old(sndBuf));
              P.Tx(sndBuf, Out(base, ok), lost, change, xmit, dead) == tx.(out := P.Finish(tx.out))
    {
      hide Encoded, P.TxAll, P.Finish, Light;
      lost, change, ok := TransmitSegments(e, base);
      F.FinishSticks(Out(base, ok));
      if ok {
        ok := SendRest(base);
      }
    }

    /** The data part of a flush, after acknowledgements and probes; `wnd` is the window `flush` has announced. */
    method FlushData(wnd: u16, ghost base: nat) returns (ok: bool)
      requires Encoded() && base <= |emitted| && wnd == R.WndUnused(Receiver(), cfg.rcvWnd)
      requires cfg.mtu == OVERHEAD + cfg.mss && Light(E.Admission(State()).buf, cfg.mss)
      modifies this`sndNxt, this`sndQueue, this`sndBuf, this`xmit, this`dead, this`cong, this`buf, this`packed,
               this`emitted, output
      ensures Encoded() && base <= |emitted| && emitted[..base] == old(emitted)[..base]
      ensures E.Outcome(State(), emitted[base..], ok) == E.Transmit(old(State()), old(Out(base, true)))
    {
      hide Encoded, P.TxAll, P.Finish, Settle, R.WndUnused, E.RoundOf, E.UsedWindow, E.Admission, Receiver, Light;
      var e, cwnd := OpenRound(wnd);
      SenderParts();
      RoundIs(old(State()));
      var lost, change;
      lost, change, ok := TransmitDue(e, base);
      if !ok {
        return;
      }
      SettleWindow(change > 0, lost, e.resent, cwnd);
    }

    static lemma RoundIs(s: E.State)
      ensures E.RoundOf(s).mtu == s.cfg.mtu && E.RoundOf(s).deadLink == s.cfg.deadLink
      ensures E.RoundOf(s).resent == E.Resent(s.cfg)
    {
    }

    // ---- flush ------------------------------------------------------------------

    static lemma AckRunIs(s: E.State, acks: seq<E.Ack>, segment: Packet)
      requires segment == Packet(s.conv, CMD_ACK, 0, R.WndUnused(s.rcv, s.cfg.rcvWnd), 0, 0, s.rcv.nxt, [])
      ensures AckRun(segment, acks) == E.AckPackets(s, acks)
      ensures var last := if acks == [] then segment else AckRun(segment, acks)[|acks| - 1];
              last.data == [] && forall probe :: ProbeRun(last, probe) == E.ProbePackets(s, acks, probe)
    {
      hide R.WndUnused;
    }

    /** Acknowledgements and probe commands: the part of a flush before the data. */
    method FlushControl(wnd: u16, ghost base: nat) returns (ok: bool)
      requires Encoded() && base <= |emitted| && wnd == R.WndUnused(Receiver(), cfg.rcvWnd) && cfg.mtu >= OVERHEAD
      modifies this`acklist, this`probe, this`buf, this`packed, this`emitted, output
      ensures Encoded() && base <= |emitted| && emitted[..base] == old(emitted)[..base]
      ensures var s := old(State());
              var o1 := P.PutAll(old(Out(base, true)), E.AckPackets(s, s.acks), cfg.mtu);
              var o2 := P.PutAll(o1, E.ProbePackets(s, s.acks, E.AfterAcks(s).probe), cfg.mtu);
              if !o1.ok then Out(base, ok) == o1 && State() == s.(buf := o1.buf)
              else Out(base, ok) == o2 && State() == (if ok then E.AfterProbes(s) else E.AfterAcks(s)).(buf := o2.buf)
    {
      hide Encoded, P.PutAll, R.WndUnused, E.ProbeTimer, E.AckPackets, E.ProbePackets, AckRun, ProbeRun, State;
      ghost var s := State();
      StateParts();
      var segment := Packet(conv, CMD_ACK, 0, wnd, 0, 0, rcvNxt, []);
      AckRunIs(s, s.acks, segment);
      ok, segment := FlushAcks(segment, base);
      if !ok {
        return;
      }
      StateParts();
      ProbeWndSize();
      StateParts();
      ok := FlushProbeCommands(segment, base);
    }

    lemma StateParts()
      ensures var s := State();
              && s.cfg == cfg && s.conv == conv && s.rcv == Receiver() && s.acks == acklist && s.rmtWnd == rmtWnd
              && s.probe == probe && s.clock == clock && s.buf == packed
    {
    }

    static lemma TransmitIgnoresBuf(s: E.State, b: Datagram, o: P.Out)
      ensures E.Transmit(s.(buf := b), o) == E.Transmit(s, o)
      ensures E.Admission(s.(buf := b)) == E.Admission(s)
    {
      hide P.TxAll, S.Admit, P.Finish, Settle;
    }

    static lemma ControlKeeps(s: E.State, b: Datagram)
      requires EndInv(s) && SendRoom(s)
      ensures var t := E.AfterProbes(s).(buf := b);
              && t.cfg == s.cfg && t.rcv == s.rcv && s.cfg.mtu == OVERHEAD + s.cfg.mss
              && Light(E.Admission(t).buf, s.cfg.mss)
    {
      hide SendRoom;
      F.AfterProbesIsSimilar(s);
      F.AdmissionIsLight(s);
      TransmitIgnoresBuf(E.AfterProbes(s), b, P.Out([], [], 0, true));
    }

    /** What one flush does to the endpoint, and the datagrams it sends. */
    method Flush() returns (r: Result<()>)
      requires Valid() && SendRoom(State())
      modifies this`acklist, this`probe, this`sndNxt, this`sndQueue, this`sndBuf, this`xmit, this`dead, this`cong,
               this`buf,
               this`packed, this`emitted, output
      ensures Valid()
      ensures var o := E.Flush(old(State()), old(output.room));
              State() == o.st && emitted == old(emitted) + o.sent && r == if o.ok then Ok(()) else Err(IoError)
    {
      hide EndInv, E.Flush, SendRoom, State, Encoded;
      F.FlushKeeps(State(), output.room);
      FlushWithoutUpdate(State(), output.room);
      StateParts();
      if !clock.updated {
        return Ok(());
      }
      ghost var base := |emitted|;
      var ok := FlushUpdated();
      assert emitted == emitted[..base] + emitted[base..];
      r := if ok then Ok(()) else Err(IoError);
    }

    static lemma FlushWithoutUpdate(s: E.State, limit: nat)
      ensures !s.clock.updated ==> E.Flush(s, limit) == E.Outcome(s, [], true)
    {
    }

    method FlushUpdated() returns (ok: bool)
      requires Encoded() && EndInv(State()) && SendRoom(State()) && clock.updated
      modifies this`acklist, this`probe, this`sndNxt, this`sndQueue, this`sndBuf, this`xmit, this`dead, this`cong,
               this`buf,
               this`packed, this`emitted, output
      ensures Encoded() && |emitted| >= old(|emitted|) && emitted[..old(|emitted|)] == old(emitted)
      ensures E.Outcome(State(), emitted[old(|emitted|)..], ok) == E.Flush(old(State()), old(output.room))
    {
      hide EndInv, E.Flush, SendRoom, State, Encoded, P.PutAll, E.Transmit, E.AckPackets, E.ProbePackets, E.AfterAcks,
           E.AfterProbes, R.WndUnused;
      ghost var s, base := State(), |emitted|;
      FlushIs(s, output.room);
      ConfigIsOk(s);
      StateParts();
      assert Out(base, true) == E.Start(s, output.room);
      var wnd := WndUnused();
      ok := FlushControl(wnd, base);
      if ok {
        ControlKeeps(s, packed);
        StateParts();
        ok := FlushData(wnd, base);
      }
    }

    static lemma FlushIs(s: E.State, limit: nat)
      ensures var o1 := P.PutAll(E.Start(s, limit), E.AckPackets(s, s.acks), s.cfg.mtu);
              var o2 := P.PutAll(o1, E.ProbePackets(s, s.acks, E.AfterAcks(s).probe), s.cfg.mtu);
              E.Flush(s, limit) ==
              if !s.clock.updated then E.Outcome(s, [], true)
              else if !o1.ok then E.Outcome(s.(buf := o1.buf), o1.sent, false)
              else if !o2.ok then E.Outcome(E.AfterAcks(s).(buf := o2.buf), o2.sent, false)
              else E.Transmit(E.AfterProbes(s).(buf := o2.buf), o2)
    {
      hide E.Flush, P.PutAll, E.AckPackets, E.ProbePackets, E.Transmit, E.AfterAcks, E.AfterProbes;
      F.FlushCases(s, limit);
      var o1 := P.PutAll(E.Start(s, limit), E.AckPackets(s, s.acks), s.cfg.mtu);
      var o2 := P.PutAll(o1, E.ProbePackets(s, s.acks, E.AfterAcks(s).probe), s.cfg.mtu);
      TransmitIgnoresBuf(E.AfterProbes(s), o2.buf, o2);
    }

    /** Sends the pending acknowledgements only. */
    method FlushAck() returns (r: Result<()>)
      requires Valid()
      modifies this`acklist, this`buf, this`packed, this`emitted, output
      ensures Valid()
      ensures !clock.updated ==> r == Err(NeedUpdate) && State() == old(State()) && emitted == old(emitted)
      ensures clock.updated ==>
                var o := E.FlushAck(old(State()), old(output.room));
                State() == o.st && emitted == old(emitted) + o.sent && r == if o.ok then Ok(()) else Err(IoError)
    {
      hide EndInv, State, Encoded, P.PutAll, E.AckPackets, R.WndUnused, AckRun, ProbeRun;
      ConfigIsOk(State());
      StateParts();
      if !clock.updated {
        return Err(NeedUpdate);
      }
      F.FlushAckKeeps(State(), output.room);
      ghost var s, base := State(), |emitted|;
      var wnd := WndUnused();
      var segment := Packet(conv, CMD_ACK, 0, wnd, 0, 0, rcvNxt, []);
      AckRunIs(s, s.acks, segment);
      assert Out(base, true) == E.Start(s, output.room);
      var ok;
      ok, segment := FlushAcks(segment, base);
      assert emitted == emitted[..base] + emitted[base..];
      r := if ok then Ok(()) else Err(IoError);
    }

    // ---- the clock --------------------------------------------------------------

    static lemma ClockKeeps(s: E.State, c: E.Clock)
      requires EndInv(s) && SendRoom(s)
      ensures EndInv(s.(clock := c)) && SendRoom(s.(clock := c))
    {
    }

    /** Moves the clock to `now`; the first time, the next flush is due at once. */
    method SetClock(now: u32)
      requires Valid() && SendRoom(State())
      modifies this`clock
      ensures Valid() && SendRoom(State())
      ensures State() == old(State()).(clock := E.Touch(old(clock), now))
    {
      hide EndInv, SendRoom, Encoded, Sender, Receiver;
      ClockKeeps(State(), E.Touch(clock, now));
      clock := clock.(current := now);
      if !clock.updated {
        clock := clock.(updated := true, flushAt := clock.current);
      }
    }

    method FlushAsync() returns (r: Result<()>)
      requires Valid() && SendRoom(State())
      modifies this`clock, this`acklist, this`probe, this`sndNxt, this`sndQueue, this`sndBuf, this`xmit, this`dead,
               this`cong, this`buf,
               this`packed, this`emitted, output
      ensures Valid()
      ensures var o := E.FlushAsync(old(State()), old(output.room));
              State() == o.st && emitted == old(emitted) + o.sent && r == if o.ok then Ok(()) else Err(IoError)
    {
      hide EndInv, SendRoom, State, Encoded, E.Flush, E.Touch;
      StateParts();
      SetClock(Add32(clock.current, 10));
      r := Flush();
    }

    /** When the flush time has come, sets the next one. */
    method Reschedule() returns (due: bool)
      requires Valid() && SendRoom(State())
      modifies this`clock
      ensures Valid() && SendRoom(State()) && due == (E.Slap(old(clock)).0 >= 0)
      ensures due ==> State() == old(State()).(clock := E.Schedule(old(clock), cfg.interval))
      ensures !due ==> State() == old(State())
    {
      hide EndInv, SendRoom, Encoded, Sender, Receiver, Timediff, Add32;
      ClockKeeps(State(), E.Schedule(clock, cfg.interval));
      var c := clock;
      var slap := Timediff(c.current, c.flushAt);
      if !(-10000 <= slap < 10000) {
        c := c.(flushAt := c.current);
        slap := 0;
      }
      due := slap >= 0;
      if due {
        c := c.(flushAt := Add32(c.flushAt, cfg.interval));
        if Timediff(c.current, c.flushAt) >= 0 {
          c := c.(flushAt := Add32(c.current, cfg.interval));
        }
        clock := c;
      }
    }

    method Update(now: u32) returns (r: Result<()>)
      requires Valid() && SendRoom(State())
      modifies this`clock, this`acklist, this`probe, this`sndNxt, this`sndQueue, this`sndBuf, this`xmit, this`dead,
               this`cong, this`buf,
               this`packed, this`emitted, output
      ensures Valid()
      ensures var o := E.Update(old(State()), now, old(output.room));
              State() == o.st && emitted == old(emitted) + o.sent && r == if o.ok then Ok(()) else Err(IoError)
    {
      hide EndInv, SendRoom, State, Encoded, E.Flush, E.Touch, E.Slap, E.Schedule;
      StateParts();
      SetClock(now);
      StateParts();
      var due := Reschedule();
      if due {
        r := Flush();
      } else {
        r := Ok(());
      }
    }

    method Check(now: u32) returns (d: u32)
      ensures d == E.Check(State(), now)
    {
      hide Timediff, Receiver;
      if !clock.updated {
        return 0;
      }
      var tsFlush := clock.flushAt;
      TimediffSelf(now);
      if Timediff(now, tsFlush) >= 10000 || Timediff(now, tsFlush) < -10000 {
        tsFlush := now;
      }
      if Timediff(now, tsFlush) >= 0 {
        return 0;
      }
      var tmFlush := Timediff(tsFlush, now) % TWO_32;
      var tmPacket: u32 := TWO_32 - 1;
      var i := 0;
      assert sndBuf[0..] == sndBuf;
      while i < |sndBuf|
        invariant i <= |sndBuf| && E.PacketWait(sndBuf, now) == Min(tmPacket, E.PacketWait(sndBuf[i..], now))
      {
        assert sndBuf[i..][1..] == sndBuf[i + 1..];
        var diff := Timediff(sndBuf[i].resendts, now);
        if diff <= 0 {
          return 0;
        }
        if diff < tmPacket {
          tmPacket := diff;
        }
        i := i + 1;
      }
      assert sndBuf[i..] == [];
      return Min(Min(tmPacket, tmFlush), cfg.interval);
    }

    static lemma TimediffSelf(t: u32)
      ensures Timediff(t, t) == 0
    {
    }

    method WaitSnd() returns (n: nat)
      ensures n == E.WaitSnd(State())
    {
      n := |sndBuf| + |sndQueue|;
    }
  }
}
