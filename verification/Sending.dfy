/** The sending half of an endpoint: fragmentation, numbering, and what acknowledgements remove. */
module Sending {
  import opened Arith
  import opened Errors
  import opened Wire
  import opened Chunks

  /** A numbered segment kept for retransmission. */
  datatype Segment = Segment(conv: u32, cmd: u8, frg: u8, wnd: u16, ts: u32, sn: u32, una: u32,
                             resendts: u32, rto: u32, fastack: u32, xmit: u32, data: seq<byte>)

  function PacketOf(s: Segment): Packet { Packet(s.conv, s.cmd, s.frg, s.wnd, s.ts, s.sn, s.una, s.data) }

  function ChunkOfSegment(s: Segment): Chunk { Chunk(s.frg, s.data) }

  /** A segment waiting in `queue` has no header yet, only its fragment number and data. */
  datatype Sender = Sender(una: u32, nxt: u32, queue: seq<Chunk>, buf: seq<Segment>)

  // ---- fragmentation ----------------------------------------------------------

  /** `send` refuses what would take this many segments. */
  const FRAGMENT_LIMIT := 128

  function FragmentCount(n: nat, mss: nat): (c: nat)
    requires mss > 0
    ensures c > 0
  {
    if n <= mss then 1 else (n + mss - 1) / mss
  }

  function Fragments(data: seq<byte>, mss: nat, count: nat, stream: bool): (cs: seq<Chunk>)
    requires count <= 0x100
    ensures |cs| == count
    decreases count
  {
    if count == 0 then []
    else
      var size := Min(mss, |data|);
      [Chunk(if stream then 0 else count - 1, data[..size])] + Fragments(data[size..], mss, count - 1, stream)
  }

  datatype Submission = Submission(queue: seq<Chunk>, result: Result<nat>)

  /** How much of `data` goes into the last queued segment in stream mode. */
  function Extension(queue: seq<Chunk>, data: seq<byte>, mss: nat, stream: bool): (n: nat)
    ensures n <= |data|
  {
    if stream && queue != [] && |queue[|queue| - 1].data| < mss then Min(|data|, mss - |queue[|queue| - 1].data|) else 0
  }

  function ExtendLast(queue: seq<Chunk>, data: seq<byte>, mss: nat, stream: bool): (q: seq<Chunk>)
    ensures |q| == |queue|
  {
    if stream && queue != [] && |queue[|queue| - 1].data| < mss then
      var last := queue[|queue| - 1];
      queue[..|queue| - 1] + [Chunk(0, last.data + data[..Extension(queue, data, mss, stream)])]
    else queue
  }

  function Send(queue: seq<Chunk>, data: seq<byte>, mss: nat, stream: bool): Submission
    requires mss > 0
  {
    var q := ExtendLast(queue, data, mss, stream);
    var rest := data[Extension(queue, data, mss, stream)..];
    if stream && queue != [] && rest == [] then Submission(q, Ok(|data|))
    else
      var count := FragmentCount(|rest|, mss);
      if count >= FRAGMENT_LIMIT then Submission(q, Err(UserBufTooBig))
      else Submission(q + Fragments(rest, mss, count, stream), Ok(|data|))
  }

  /** The bytes of `data` that `send` has taken over, also when it reports an error. */
  function Taken(queue: seq<Chunk>, data: seq<byte>, mss: nat, stream: bool): seq<byte>
    requires mss > 0
  {
    if Send(queue, data, mss, stream).result.Ok? then data else data[..Extension(queue, data, mss, stream)]
  }

  /** `count` pieces of `mss` bytes are enough for `n`, and one less is not. */
  predicate Covers(count: nat, mss: nat, n: nat) {
    count > 0 && count * mss >= n && (count > 1 ==> (count - 1) * mss < n)
  }

  lemma FragmentCountCovers(n: nat, mss: nat)
    requires mss > 0
    ensures var c := FragmentCount(n, mss); Covers(c, mss, n) && c * mss >= n
  {
    var c := FragmentCount(n, mss);
    if n > mss {
      var r := (n + mss - 1) % mss;
      assert n + mss - 1 == mss * c + r;
      assert (c - 1) * mss == c * mss - mss;
    }
  }

  lemma CoversStep(count: nat, mss: nat, n: nat)
    requires Covers(count, mss, n)
    ensures if count == 1 then n <= mss else n > mss && Covers(count - 1, mss, n - mss)
  {
    if count > 1 {
      assert count * mss == (count - 1) * mss + mss && (count - 1) * mss == (count - 2) * mss + mss;
    }
  }

  /** Fragments that cover the data join to it again; in message mode they count down to zero, and all
      but the last are full. */
  lemma {:induction false} FragmentsFacts(data: seq<byte>, mss: nat, count: nat, stream: bool)
    requires count <= 0x100 && Covers(count, mss, |data|)
    ensures var cs := Fragments(data, mss, count, stream);
            && Bytes(cs) == data
            && (forall i | 0 <= i < count :: |cs[i].data| <= mss && cs[i].frg == if stream then 0 else count - 1 - i)
            && (forall i | 0 <= i < count - 1 :: |cs[i].data| == mss)
    decreases count
  {
    hide Covers;
    CoversStep(count, mss, |data|);
    NoZeroCover(mss, |data|);
    var cs := Fragments(data, mss, count, stream);
    var size := Min(mss, |data|);
    var first := Chunk(if stream then 0 else count - 1, data[..size]);
    if count == 1 {
      assert data[..size] == data;
      assert cs == [first];
      assert Bytes(cs) == first.data + Bytes([]);
    } else {
      var tail := Fragments(data[size..], mss, count - 1, stream);
      FragmentsFacts(data[size..], mss, count - 1, stream);
      assert cs == [first] + tail;
      assert cs[1..] == tail;
      assert data == data[..size] + data[size..];
    }
  }

  lemma NoZeroCover(mss: nat, n: nat)
    ensures !Covers(0, mss, n)
  {
  }

  /** `send` takes over exactly the bytes it says: all of them on success; on refusal none in message
      mode, and in stream mode only what fitted into the last queued segment. */
  lemma SendBytes(queue: seq<Chunk>, data: seq<byte>, mss: nat, stream: bool)
    requires mss > 0
    ensures var s := Send(queue, data, mss, stream);
            && Bytes(s.queue) == Bytes(queue) + Taken(queue, data, mss, stream)
            && (s.result.Ok? ==> s.result.value == |data|)
            && (s.result.Err? && !stream ==> s.queue == queue)
  {
    hide Fragments, ExtendLast, Bytes, FragmentCount;
    NoExtension(queue, data, mss, stream);
    var e := Extension(queue, data, mss, stream);
    var q, rest := ExtendLast(queue, data, mss, stream), data[e..];
    ExtendLastBytes(queue, data, mss, stream);
    assert data == data[..e] + rest;
    if !(stream && queue != [] && rest == []) {
      var count := FragmentCount(|rest|, mss);
      if count < FRAGMENT_LIMIT {
        FragmentCountCovers(|rest|, mss);
        FragmentsFacts(rest, mss, count, stream);
        BytesAppend(q, Fragments(rest, mss, count, stream));
        assert Bytes(queue) + data == Bytes(queue) + data[..e] + rest;
      }
    }
  }

  lemma FewestFragments(n: nat, mss: nat)
    requires mss > 0
    ensures FragmentCount(n, mss) < FRAGMENT_LIMIT <==> n <= 127 * mss
  {
    hide FragmentCount;
    FragmentCountCovers(n, mss);
    var c := FragmentCount(n, mss);
    if c < FRAGMENT_LIMIT {
      TimesMonotone(c, 127, mss);
    } else {
      TimesMonotone(127, c - 1, mss);
    }
  }

  lemma TimesMonotone(a: nat, b: nat, m: nat)
    requires a <= b
    ensures a * m <= b * m
  {
  }

  /** Which messages `send` accepts: in message mode those of at most 127 segments; in stream mode it is what
      is left over once the last queued segment is filled up that must fit. */
  lemma SendAccepts(queue: seq<Chunk>, data: seq<byte>, mss: nat, stream: bool)
    requires mss > 0
    ensures var r := Send(queue, data, mss, stream).result;
            var free := if stream && queue != [] then Max(mss - |queue[|queue| - 1].data|, 0) else 0;
            && (r.Ok? <==> |data| - Min(|data|, free) <= 127 * mss)
            && (r == Ok(|data|) || r == Err(UserBufTooBig))
  {
    hide FragmentCount, Fragments;
    var e := Extension(queue, data, mss, stream);
    FewestFragments(|data| - e, mss);
    assert |data[e..]| == |data| - e;
    NothingFits(mss);
  }

  lemma NothingFits(mss: nat)
    ensures 0 <= 127 * mss
  {
  }

  lemma NoExtension(queue: seq<Chunk>, data: seq<byte>, mss: nat, stream: bool)
    ensures !stream ==> ExtendLast(queue, data, mss, stream) == queue
  {
  }

  lemma ExtendLastBytes(queue: seq<Chunk>, data: seq<byte>, mss: nat, stream: bool)
    ensures Bytes(ExtendLast(queue, data, mss, stream)) == Bytes(queue) + data[..Extension(queue, data, mss, stream)]
  {
    var e := Extension(queue, data, mss, stream);
    var q := ExtendLast(queue, data, mss, stream);
    if q != queue {
      var front, last := queue[..|queue| - 1], queue[|queue| - 1];
      assert queue == front + [last];
      BytesSnoc(front, last);
      BytesSnoc(front, Chunk(0, last.data + data[..e]));
      assert Bytes(front) + (last.data + data[..e]) == Bytes(front) + last.data + data[..e];
    } else if e > 0 {
      BytesUnchanged(queue, data, mss, stream);
    }
  }

  lemma BytesSnoc(cs: seq<Chunk>, c: Chunk)
    ensures Bytes(cs + [c]) == Bytes(cs) + c.data
  {
    BytesAppend(cs, [c]);
    assert Bytes([c]) == c.data + Bytes([]);
  }

  lemma BytesUnchanged(queue: seq<Chunk>, data: seq<byte>, mss: nat, stream: bool)
    requires Extension(queue, data, mss, stream) > 0
    ensures ExtendLast(queue, data, mss, stream) != queue
  {
    var e := Extension(queue, data, mss, stream);
    var last := queue[|queue| - 1];
    assert |last.data + data[..e]| > |last.data|;
  }

  /** What the queue looks like: no segment is larger than `mss`, the last one ends a message, and in
      stream mode every segment but the last is full. */
  ghost predicate QueueShape(queue: seq<Chunk>, mss: nat, stream: bool) {
    && (forall i | 0 <= i < |queue| :: |queue[i].data| <= mss)
    && (queue != [] ==> queue[|queue| - 1].frg == 0)
    && (stream ==> forall i | 0 <= i < |queue| :: queue[i].frg == 0)
    && (stream ==> forall i | 0 <= i < |queue| - 1 :: |queue[i].data| == mss)
  }

  lemma ExtendLastShape(queue: seq<Chunk>, data: seq<byte>, mss: nat, stream: bool)
    requires QueueShape(queue, mss, stream)
    ensures var q, e := ExtendLast(queue, data, mss, stream), Extension(queue, data, mss, stream);
            QueueShape(q, mss, stream) && (stream && q != [] && e < |data| ==> |q[|q| - 1].data| == mss)
  {
  }

  /** `send` keeps the shape of the queue, and in message mode appends the fragments of the message. */
  lemma SendShape(queue: seq<Chunk>, data: seq<byte>, mss: nat, stream: bool)
    requires mss > 0 && QueueShape(queue, mss, stream)
    ensures var s := Send(queue, data, mss, stream);
            && QueueShape(s.queue, mss, stream) && |queue| <= |s.queue| < |queue| + FRAGMENT_LIMIT
            && (!stream && s.result.Ok? ==>
                  s.queue == queue + MessageChunks(data, mss) && MessageChunks(data, mss) != [])
  {
    hide Fragments, ExtendLast, FragmentCount, QueueShape;
    NoExtension(queue, data, mss, stream);
    var e := Extension(queue, data, mss, stream);
    var q, rest := ExtendLast(queue, data, mss, stream), data[e..];
    ExtendLastShape(queue, data, mss, stream);
    if !(stream && queue != [] && rest == []) {
      var count := FragmentCount(|rest|, mss);
      if count < FRAGMENT_LIMIT {
        FragmentsShape(rest, mss, stream);
        ShapeAppend(q, Fragments(rest, mss, count, stream), mss, stream);
        assert !stream ==> rest == data;
      }
    }
  }

  lemma FragmentsShape(data: seq<byte>, mss: nat, stream: bool)
    requires mss > 0 && FragmentCount(|data|, mss) < FRAGMENT_LIMIT
    ensures QueueShape(Fragments(data, mss, FragmentCount(|data|, mss), stream), mss, stream)
  {
    hide Fragments, FragmentCount, Covers;
    FragmentCountCovers(|data|, mss);
    FragmentsFacts(data, mss, FragmentCount(|data|, mss), stream);
  }

  lemma ShapeAppend(q: seq<Chunk>, f: seq<Chunk>, mss: nat, stream: bool)
    requires QueueShape(q, mss, stream) && QueueShape(f, mss, stream)
    requires stream && q != [] ==> |q[|q| - 1].data| == mss
    ensures QueueShape(q + f, mss, stream)
  {
  }

  // ---- messages ---------------------------------------------------------------

  /** The fragments of one message. */
  function MessageChunks(m: seq<byte>, mss: nat): seq<Chunk>
    requires mss > 0
  {
    var c := FragmentCount(|m|, mss);
    if c < FRAGMENT_LIMIT then Fragments(m, mss, c, false) else []
  }

  function Framed(ms: seq<seq<byte>>, mss: nat): seq<Chunk>
    requires mss > 0
  {
    if ms == [] then [] else MessageChunks(ms[0], mss) + Framed(ms[1..], mss)
  }

  lemma {:induction false} FramedAppend(a: seq<seq<byte>>, b: seq<seq<byte>>, mss: nat)
    requires mss > 0
    ensures Framed(a + b, mss) == Framed(a, mss) + Framed(b, mss)
  {
    hide MessageChunks;
    if a == [] {
      assert a + b == b;
    } else {
      assert (a + b)[1..] == a[1..] + b;
      FramedAppend(a[1..], b, mss);
    }
  }

  lemma FramedSnoc(ms: seq<seq<byte>>, m: seq<byte>, mss: nat)
    requires mss > 0
    ensures Framed(ms + [m], mss) == Framed(ms, mss) + MessageChunks(m, mss)
  {
    hide MessageChunks;
    FramedAppend(ms, [m], mss);
    assert [m][1..] == [];
    assert Framed([m], mss) == MessageChunks(m, mss) + Framed([], mss);
  }

  lemma {:induction false} MessageEndOfCountdown(cs: seq<Chunk>, c: nat)
    requires 0 < c <= 0x100 && forall i | 0 <= i < Min(c, |cs|) :: cs[i].frg == c - 1 - i
    ensures MessageEnd(cs) == Min(c, |cs|)
  {
    if cs != [] && c > 1 {
      forall i | 0 <= i < Min(c - 1, |cs| - 1) ensures cs[1..][i].frg == c - 2 - i {
        assert cs[1..][i] == cs[i + 1];
      }
      MessageEndOfCountdown(cs[1..], c - 1);
    }
  }

  /** With a whole message at the front, the receiver's queue yields that message and nothing else. */
  lemma FrontMessage(m: seq<byte>, rest: seq<Chunk>, mss: nat)
    requires mss > 0 && MessageChunks(m, mss) != []
    ensures var f := MessageChunks(m, mss); var cs := f + rest;
            MessageEnd(cs) == |f| && cs[..|f|] == f && Bytes(f) == m && PeekSize(cs) == Ok(|m|)
  {
    var f := MessageChunks(m, mss);
    var cs := f + rest;
    FragmentCountCovers(|m|, mss);
    FragmentsFacts(m, mss, |f|, false);
    MessageEndOfCountdown(cs, |f|);
    assert cs[..|f|] == f;
    assert cs[0] == f[0];
    PeekSizeIsMessageSize(cs);
  }

  /** With only part of a message there, the receiver waits for the rest. */
  lemma PartialMessage(m: seq<byte>, n: nat, mss: nat)
    requires mss > 0 && 0 < n < |MessageChunks(m, mss)|
    ensures n < FRAGMENT_LIMIT && PeekSize(MessageChunks(m, mss)[..n]) == Err(ExpectingFragment)
  {
    var f := MessageChunks(m, mss);
    FragmentCountCovers(|m|, mss);
    FragmentsFacts(m, mss, |f|, false);
    assert f[..n][0].frg == |f| - 1;
  }

  // ---- acknowledgements -------------------------------------------------------

  function ParseUna(buf: seq<Segment>, una: u32): seq<Segment> {
    if buf != [] && Timediff(una, buf[0].sn) > 0 then ParseUna(buf[1..], una) else buf
  }

  function Shrink(s: Sender): Sender { s.(una := if s.buf != [] then s.buf[0].sn else s.nxt) }

  function RemoveSn(buf: seq<Segment>, sn: u32): seq<Segment> {
    if buf == [] || sn < buf[0].sn then buf
    else if sn == buf[0].sn then buf[1..]
    else [buf[0]] + RemoveSn(buf[1..], sn)
  }

  predicate InFlight(s: Sender, sn: u32) { Timediff(sn, s.una) >= 0 && Timediff(sn, s.nxt) < 0 }

  function ParseAck(s: Sender, sn: u32): Sender {
    if InFlight(s, sn) then s.(buf := RemoveSn(s.buf, sn)) else s
  }

  /** One more acknowledgement has passed over every segment before `sn`. */
  function BumpFastack(buf: seq<Segment>, sn: u32): (b: seq<Segment>)
    ensures |b| == |buf|
  {
    if buf == [] || Timediff(sn, buf[0].sn) < 0 then buf
    else
      var s := buf[0];
      [if sn != s.sn then s.(fastack := Add32(s.fastack, 1)) else s] + BumpFastack(buf[1..], sn)
  }

  function ParseFastack(s: Sender, sn: u32): Sender {
    if InFlight(s, sn) then s.(buf := BumpFastack(s.buf, sn)) else s
  }

  // ---- admission --------------------------------------------------------------

  /** What a segment is given when it is numbered. */
  datatype Stamp = Stamp(conv: u32, wnd: u16, current: u32, una: u32, rto: u32)

  function Admitted(h: Stamp, sn: u32, c: Chunk): Segment {
    Segment(h.conv, CMD_PUSH, c.frg, h.wnd, h.current, sn, h.una, h.current, h.rto, 0, 0, c.data)
  }

  /** Numbers queued segments and moves them to the send buffer while the window is open. */
  function Admit(s: Sender, cwnd: u16, h: Stamp): Sender
    decreases |s.queue|
  {
    if s.queue != [] && Timediff(s.nxt, Add32(s.una, cwnd)) < 0 then
      Admit(Sender(s.una, Add32(s.nxt, 1), s.queue[1..], s.buf + [Admitted(h, s.nxt, s.queue[0])]), cwnd, h)
    else s
  }

  // ---- the sender invariant ---------------------------------------------------

  ghost predicate InOrder(buf: seq<Segment>) { forall i, j | 0 <= i < j < |buf| :: buf[i].sn < buf[j].sn }

  ghost predicate Numbers(buf: seq<Segment>, lo: int, hi: int) { forall i | 0 <= i < |buf| :: lo <= buf[i].sn < hi }

  predicate Keeps(buf: seq<Segment>, sn: u32) { exists i | 0 <= i < |buf| :: buf[i].sn == sn }

  ghost predicate SndInv(s: Sender, wnd: u16) {
    && InOrder(s.buf) && Numbers(s.buf, s.una, s.nxt)
    && s.una == (if s.buf != [] then s.buf[0].sn else s.nxt)
    && s.nxt - s.una <= wnd
  }

  lemma {:induction false} ParseUnaFacts(buf: seq<Segment>, una: u32) returns (k: nat)
    ensures k <= |buf| && ParseUna(buf, una) == buf[k..]
    ensures forall i | 0 <= i < k :: Timediff(una, buf[i].sn) > 0
    ensures k < |buf| ==> Timediff(una, buf[k].sn) <= 0
  {
    hide Timediff;
    k := 0;
    if buf != [] && Timediff(una, buf[0].sn) > 0 {
      var j := ParseUnaFacts(buf[1..], una);
      k := j + 1;
      forall i | 0 <= i < k ensures Timediff(una, buf[i].sn) > 0 {
        assert i > 0 ==> buf[i] == buf[1..][i - 1];
      }
    }
  }

  lemma KeepsCons(buf: seq<Segment>, sn: u32)
    requires buf != []
    ensures Keeps(buf, sn) <==> buf[0].sn == sn || Keeps(buf[1..], sn)
  {
    if Keeps(buf, sn) {
      var i :| 0 <= i < |buf| && buf[i].sn == sn;
      assert i > 0 ==> buf[1..][i - 1].sn == sn;
    }
  }

  lemma KeepsNothingBelow(buf: seq<Segment>, sn: u32)
    requires InOrder(buf) && (buf == [] || sn < buf[0].sn)
    ensures !Keeps(buf, sn)
  {
  }

  lemma {:induction false} RemoveSnFacts(buf: seq<Segment>, sn: u32) returns (k: nat)
    requires InOrder(buf)
    ensures k <= |buf|
    ensures if Keeps(buf, sn) then k < |buf| && buf[k].sn == sn && RemoveSn(buf, sn) == buf[..k] + buf[k + 1..]
            else RemoveSn(buf, sn) == buf
  {
    hide Keeps;
    k := 0;
    if buf == [] || sn < buf[0].sn {
      KeepsNothingBelow(buf, sn);
    } else {
      KeepsCons(buf, sn);
      if sn == buf[0].sn {
        assert buf[..0] + buf[1..] == buf[1..];
      } else {
        var rest := buf[1..];
        assert buf == [buf[0]] + rest;
        var j := RemoveSnFacts(rest, sn);
        if Keeps(rest, sn) {
          k := j + 1;
          assert buf[..k] + buf[k + 1..] == [buf[0]] + (rest[..j] + rest[j + 1..]);
        }
      }
    }
  }

  lemma KeepsSlice(buf: seq<Segment>, k: nat, n: u32)
    requires k <= |buf|
    ensures Keeps(buf[k..], n) ==> Keeps(buf, n)
    ensures Keeps(buf, n) ==> Keeps(buf[k..], n) || exists i | 0 <= i < k :: buf[i].sn == n
  {
    if Keeps(buf, n) {
      var i :| 0 <= i < |buf| && buf[i].sn == n;
      assert i >= k ==> buf[k..][i - k].sn == n;
    }
  }

  /** A cumulative acknowledgement, whatever number it carries, removes a prefix; `una` does not go back. */
  lemma UnaKeeps(s: Sender, una: u32, wnd: u16, n: u32) returns (k: nat)
    requires SndInv(s, wnd)
    ensures var s' := Shrink(s.(buf := ParseUna(s.buf, una)));
            && SndInv(s', wnd) && s'.una >= s.una && k <= |s.buf| && s'.buf == s.buf[k..]
            && (Keeps(s'.buf, n) ==> Keeps(s.buf, n))
            && (Keeps(s.buf, n) && !Keeps(s'.buf, n) ==> Timediff(una, n) > 0)
  {
    hide Timediff, ParseUna;
    k := ParseUnaFacts(s.buf, una);
    KeepsSlice(s.buf, k, n);
  }

  /** Without position `k`. */
  ghost predicate Removed(m: seq<Segment>, buf: seq<Segment>, k: nat) {
    k < |buf| && |m| == |buf| - 1 && (forall i | 0 <= i < k :: m[i] == buf[i]) &&
      (forall i | k <= i < |m| :: m[i] == buf[i + 1])
  }

  lemma RemovedKeeps(m: seq<Segment>, buf: seq<Segment>, k: nat, n: u32)
    requires Removed(m, buf, k) && InOrder(buf)
    ensures InOrder(m) && (Keeps(m, n) <==> Keeps(buf, n) && n != buf[k].sn)
  {
    if Keeps(buf, n) && n != buf[k].sn {
      var i :| 0 <= i < |buf| && buf[i].sn == n;
      assert m[if i < k then i else i - 1].sn == n;
    }
  }

  /** A selective acknowledgement removes the segment it names and nothing else. */
  lemma AckKeeps(s: Sender, sn: u32, wnd: u16, n: u32) returns (k: nat)
    requires SndInv(s, wnd)
    ensures var s' := Shrink(ParseAck(s, sn));
            && SndInv(s', wnd) && s'.una >= s.una && (s'.buf == s.buf || Removed(s'.buf, s.buf, k))
            && (Keeps(s'.buf, n) ==> Keeps(s.buf, n))
            && (Keeps(s.buf, n) && !Keeps(s'.buf, n) ==> n == sn)
            && (sn < TWO_31 && s.nxt < TWO_31 ==> !Keeps(s'.buf, sn))
  {
    hide RemoveSn;
    k := RemoveSnFacts(s.buf, sn);
    if InFlight(s, sn) && Keeps(s.buf, sn) {
      hide Timediff;
      var m := RemoveSn(s.buf, sn);
      assert Removed(m, s.buf, k);
      RemovedKeeps(m, s.buf, k, n);
      RemovedKeeps(m, s.buf, k, sn);
    } else if sn < TWO_31 && s.nxt < TWO_31 {
      NotKept(s, sn);
    }
  }

  lemma NotKept(s: Sender, sn: u32)
    requires Numbers(s.buf, s.una, s.nxt) && sn < TWO_31 && s.nxt < TWO_31
    requires !InFlight(s, sn) || !Keeps(s.buf, sn)
    ensures !Keeps(s.buf, sn)
  {
    if s.una <= sn < s.nxt {
      TimediffExact(sn, s.una);
      TimediffExact(sn, s.nxt);
    }
  }

  /** Counting duplicate acknowledgements touches nothing but the counts. */
  ghost predicate SameButFastack(a: seq<Segment>, b: seq<Segment>) {
    |a| == |b| && forall i | 0 <= i < |a| :: b[i] == a[i].(fastack := b[i].fastack)
  }

  lemma {:induction false} BumpFacts(buf: seq<Segment>, sn: u32)
    ensures SameButFastack(buf, BumpFastack(buf, sn))
  {
    hide Timediff;
    if buf != [] && Timediff(sn, buf[0].sn) >= 0 {
      BumpFacts(buf[1..], sn);
    }
  }

  lemma FastackKeeps(s: Sender, sn: u32, wnd: u16)
    requires SndInv(s, wnd)
    ensures SndInv(ParseFastack(s, sn), wnd) && SameButFastack(s.buf, ParseFastack(s, sn).buf)
  {
    hide BumpFastack;
    BumpFacts(s.buf, sn);
  }

  /** One more acknowledgement has passed over exactly the segments before `sn`. */
  ghost predicate PassedOver(a: seq<Segment>, b: seq<Segment>, sn: u32) {
    |a| == |b| && forall i | 0 <= i < |a| ::
      b[i] == if a[i].sn < sn then a[i].(fastack := Add32(a[i].fastack, 1)) else a[i]
  }

  lemma {:induction false} BumpExactly(buf: seq<Segment>, sn: u32)
    requires InOrder(buf) && sn < TWO_31 && Numbers(buf, 0, TWO_31)
    ensures PassedOver(buf, BumpFastack(buf, sn), sn)
  {
    hide Timediff;
    if buf != [] {
      TimediffExact(sn, buf[0].sn);
      if sn >= buf[0].sn {
        BumpExactly(buf[1..], sn);
      }
    }
  }

  /** Counting duplicate acknowledgements: with the highest number `sn` acknowledged in flight, exactly the kept
      segments before it count one more; otherwise nothing changes. */
  lemma FastackExactly(s: Sender, sn: u32, wnd: u16)
    requires SndInv(s, wnd) && s.nxt < TWO_31 && sn < TWO_31
    ensures if s.una <= sn < s.nxt then PassedOver(s.buf, ParseFastack(s, sn).buf, sn) else ParseFastack(s, sn) == s
  {
    hide BumpFastack;
    TimediffExact(sn, s.una);
    TimediffExact(sn, s.nxt);
    BumpExactly(s.buf, sn);
  }

  /** Admission numbers the first `k` queued segments consecutively and appends them; it stops when the
      window is full or the queue is empty. */
  lemma {:induction false} AdmitFacts(s: Sender, cwnd: u16, h: Stamp) returns (k: nat, added: seq<Segment>)
    requires s.una <= s.nxt && s.nxt + |s.queue| < TWO_31 - TWO_16
    ensures k <= |s.queue| && |added| == k
    ensures var s' := Admit(s, cwnd, h);
            s'.una == s.una && s'.nxt == s.nxt + k && s'.queue == s.queue[k..] && s'.buf == s.buf + added
    ensures forall i | 0 <= i < k :: added[i] == Admitted(h, s.nxt + i, s.queue[i])
    ensures k == |s.queue| || s.nxt + k - s.una >= cwnd
    ensures k > 0 ==> s.nxt + k - s.una <= cwnd
    decreases |s.queue|
  {
    k, added := 0, [];
    assert s.buf + added == s.buf;
    assert Add32(s.una, cwnd) == s.una + cwnd;
    TimediffExact(s.nxt, s.una + cwnd);
    hide Timediff;
    if s.queue != [] && s.nxt < s.una + cwnd {
      var first := Admitted(h, s.nxt, s.queue[0]);
      var t := Sender(s.una, s.nxt + 1, s.queue[1..], s.buf + [first]);
      assert Add32(s.nxt, 1) == s.nxt + 1;
      hide Add32;
      var j, more := AdmitFacts(t, cwnd, h);
      k, added := j + 1, [first] + more;
      assert t.queue[j..] == s.queue[k..];
      assert t.buf + more == s.buf + added;
    }
  }

  lemma AdmitKeeps(s: Sender, cwnd: u16, h: Stamp, wnd: u16) returns (k: nat, added: seq<Segment>)
    requires SndInv(s, wnd) && cwnd <= wnd && s.nxt + |s.queue| < TWO_31 - TWO_16
    ensures SndInv(Admit(s, cwnd, h), wnd)
    ensures k <= |s.queue| && |added| == k
    ensures var s' := Admit(s, cwnd, h);
            s'.una == s.una && s'.nxt == s.nxt + k && s'.queue == s.queue[k..] && s'.buf == s.buf + added
    ensures forall i | 0 <= i < k :: added[i] == Admitted(h, s.nxt + i, s.queue[i])
    ensures k == |s.queue| || s.nxt + k - s.una >= cwnd
  {
    hide Admit;
    k, added := AdmitFacts(s, cwnd, h);
    var b := s.buf + added;
    forall i | 0 <= i < |b|
      ensures s.una <= b[i].sn < s.nxt + k && (i >= |s.buf| ==> b[i].sn == s.nxt + (i - |s.buf|))
    {
    }
  }
}
