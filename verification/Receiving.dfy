/** The receiving half of an endpoint: the reorder buffer, the queue of consecutive segments, and
    message reassembly. */
module Receiving {
  import opened Arith
  import opened Errors
  import opened Wire
  import opened Chunks

  datatype Receiver = Receiver(nxt: u32, queue: seq<Packet>, buf: seq<Packet>)

  /** Moves segments from the buffer to the queue while they are next in line and fit. */
  function Drain(r: Receiver, wnd: u16): Receiver
    decreases |r.buf|
  {
    if r.buf != [] && r.buf[0].sn == r.nxt && |r.queue| < wnd then
      Drain(Receiver(Add32(r.nxt, 1), r.queue + [r.buf[0]], r.buf[1..]), wnd)
    else r
  }

  /** Puts a segment in its place, searched from the back; a segment that is there already is dropped. */
  function Insert(buf: seq<Packet>, p: Packet): seq<Packet> {
    if buf == [] then [p]
    else
      var last := buf[|buf| - 1];
      if last.sn == p.sn then buf
      else if Timediff(p.sn, last.sn) > 0 then buf + [p]
      else Insert(buf[..|buf| - 1], p) + [last]
  }

  predicate InWindow(r: Receiver, wnd: u16, sn: u32) {
    Timediff(sn, Add32(r.nxt, wnd)) < 0 && Timediff(sn, r.nxt) >= 0
  }

  function ParseData(r: Receiver, p: Packet, wnd: u16): Receiver {
    if InWindow(r, wnd, p.sn) then Drain(r.(buf := Insert(r.buf, p)), wnd) else r
  }

  datatype Reception = Reception(data: seq<byte>, rcv: Receiver, tell: bool)

  /** `recv` with a buffer of `size` bytes: the message, the receiver after it, and whether the
      reopened window is to be announced. */
  function Recv(r: Receiver, wnd: u16, size: nat): Result<Reception> {
    var cs := ChunksOf(r.queue);
    match PeekSize(cs)
    case Err(e) => Err(e)
    case Ok(n) =>
      if n > size then Err(UserBufTooSmall(n))
      else
        var k := MessageEnd(cs);
        var r' := Drain(r.(queue := r.queue[k..]), wnd);
        Ok(Reception(Bytes(cs[..k]), r', |r.queue| >= wnd && |r'.queue| < wnd))
  }

  function WndUnused(r: Receiver, wnd: u16): u16 {
    if |r.queue| < wnd then wnd - |r.queue| else 0
  }

  // ---- the receiver invariant -------------------------------------------------

  /** Numbers stay this far from the sign bit of a 32-bit difference. */
  const SN_LIMIT := 0x7FFC_0000

  ghost predicate Sorted(ps: seq<Packet>) { forall i, j | 0 <= i < j < |ps| :: ps[i].sn < ps[j].sn }

  ghost predicate Between(ps: seq<Packet>, lo: int, hi: int) { forall i | 0 <= i < |ps| :: lo <= ps[i].sn < hi }

  ghost predicate Drained(r: Receiver, wnd: u16) { r.buf == [] || r.buf[0].sn != r.nxt || |r.queue| >= wnd }

  ghost predicate RcvInv(r: Receiver, wnd: u16) {
    Sorted(r.buf) && Between(r.buf, r.nxt, r.nxt + wnd) && |r.queue| <= wnd && Drained(r, wnd)
  }

  predicate Holds(ps: seq<Packet>, sn: u32) { exists i | 0 <= i < |ps| :: ps[i].sn == sn }

  predicate Has(r: Receiver, sn: u32) { sn < r.nxt || Holds(r.buf, sn) }

  /** A strictly increasing buffer has no more entries than its range has numbers. */
  lemma {:induction false} SortedIsShort(ps: seq<Packet>, lo: int, hi: int)
    requires Sorted(ps) && Between(ps, lo, hi) && lo <= hi
    ensures |ps| <= hi - lo
  {
    if ps != [] {
      SortedIsShort(ps[..|ps| - 1], lo, ps[|ps| - 1].sn);
    }
  }

  /** `m` is `buf` with `p` put in at `i`. */
  ghost predicate InsertedAt(m: seq<Packet>, buf: seq<Packet>, p: Packet, i: nat) {
    && i < |m| == |buf| + 1 && m[i] == p
    && (forall j | 0 <= j < i :: m[j] == buf[j])
    && (forall j | i < j < |m| :: m[j] == buf[j - 1])
  }

  lemma InsertedAtEnd(buf: seq<Packet>, p: Packet)
    ensures InsertedAt(buf + [p], buf, p, |buf|)
  {
  }

  lemma InsertedAtSnoc(m: seq<Packet>, buf: seq<Packet>, p: Packet, i: nat, last: Packet)
    requires InsertedAt(m, buf, p, i)
    ensures InsertedAt(m + [last], buf + [last], p, i)
  {
  }

  lemma InsertUnfold(buf: seq<Packet>, p: Packet)
    requires p.sn < TWO_31 && (buf != [] ==> buf[|buf| - 1].sn < TWO_31)
    ensures Insert(buf, p) ==
            if buf == [] || buf[|buf| - 1].sn < p.sn then buf + [p]
            else if buf[|buf| - 1].sn == p.sn then buf
            else Insert(buf[..|buf| - 1], p) + [buf[|buf| - 1]]
  {
    if buf != [] {
      TimediffExact(p.sn, buf[|buf| - 1].sn);
    } else {
      assert buf + [p] == [p];
    }
    hide Timediff;
  }

  /** Where the search from the back stops: the number is at `i` already, or its place is there. */
  lemma {:induction false} InsertPlace(buf: seq<Packet>, p: Packet) returns (i: nat)
    requires Sorted(buf) && Between(buf, 0, TWO_31) && p.sn < TWO_31
    ensures i <= |buf| && (i > 0 ==> buf[i - 1].sn < p.sn) && (i < |buf| ==> p.sn <= buf[i].sn)
    ensures if i < |buf| && buf[i].sn == p.sn then Insert(buf, p) == buf else InsertedAt(Insert(buf, p), buf, p, i)
  {
    hide Insert, InsertedAt;
    InsertUnfold(buf, p);
    if buf == [] || buf[|buf| - 1].sn < p.sn {
      i := |buf|;
      InsertedAtEnd(buf, p);
    } else if buf[|buf| - 1].sn == p.sn {
      i := |buf| - 1;
      assert i > 0 ==> buf[i - 1].sn < buf[i].sn;
    } else {
      var front, last := buf[..|buf| - 1], buf[|buf| - 1];
      i := InsertPlace(front, p);
      assert buf == front + [last];
      if !(i < |front| && front[i].sn == p.sn) {
        InsertedAtSnoc(Insert(front, p), front, p, i, last);
      }
    }
  }

  lemma InsertSorted(m: seq<Packet>, buf: seq<Packet>, p: Packet, i: nat)
    requires Sorted(buf) && InsertedAt(m, buf, p, i)
    requires (i > 0 ==> buf[i - 1].sn < p.sn) && (i < |buf| ==> p.sn < buf[i].sn)
    ensures Sorted(m)
  {
    forall j, k | 0 <= j < k < |m| ensures m[j].sn < m[k].sn {
      assert j < i && i > 0 ==> buf[j].sn <= buf[i - 1].sn;
      assert k > i ==> buf[i].sn <= buf[k - 1].sn;
    }
  }

  lemma InsertHolds(m: seq<Packet>, buf: seq<Packet>, p: Packet, i: nat, n: u32)
    requires InsertedAt(m, buf, p, i)
    ensures Holds(m, n) <==> n == p.sn || Holds(buf, n)
  {
    if Holds(buf, n) {
      var j :| 0 <= j < |buf| && buf[j].sn == n;
      assert m[if j < i then j else j + 1].sn == n;
    }
    assert m[i].sn == p.sn;
  }

  /** Merging a segment keeps the buffer in order and adds its number. */
  lemma InsertFacts(buf: seq<Packet>, p: Packet, n: u32) returns (i: nat)
    requires Sorted(buf) && Between(buf, 0, TWO_31) && p.sn < TWO_31
    ensures var m := Insert(buf, p);
            Sorted(m) && (m == buf || InsertedAt(m, buf, p, i)) && (Holds(m, n) <==> n == p.sn || Holds(buf, n))
  {
    i := InsertPlace(buf, p);
    hide Insert;
    if i < |buf| && buf[i].sn == p.sn {
    } else {
      InsertSorted(Insert(buf, p), buf, p, i);
      InsertHolds(Insert(buf, p), buf, p, i, n);
    }
  }

  /** `Drain` splits the buffer: its first `k` segments, which carry the next `k` numbers, join the
      queue, and it stops only at a gap or a full queue. */
  lemma {:induction false} DrainFacts(r: Receiver, wnd: u16) returns (k: nat)
    requires r.nxt + |r.buf| < TWO_31
    ensures k <= |r.buf| && (|r.queue| <= wnd ==> |r.queue| + k <= wnd)
    ensures var d := Drain(r, wnd);
            d.nxt == r.nxt + k && d.queue == r.queue + r.buf[..k] && d.buf == r.buf[k..] && Drained(d, wnd)
    ensures forall i | 0 <= i < k :: r.buf[i].sn == r.nxt + i
    decreases |r.buf|
  {
    k := 0;
    if r.buf != [] && r.buf[0].sn == r.nxt && |r.queue| < wnd {
      assert Add32(r.nxt, 1) == r.nxt + 1;
      var first, rest := r.buf[0], r.buf[1..];
      var s := Receiver(r.nxt + 1, r.queue + [first], rest);
      var j := DrainFacts(s, wnd);
      k := j + 1;
      assert r.buf == [first] + rest;
      assert r.buf[..k] == [first] + rest[..j];
      assert r.queue + r.buf[..k] == s.queue + rest[..j];
    }
  }

  /** What is left in the buffer after the first `k`, consecutively numbered, have gone. */
  lemma RestOfSorted(m: seq<Packet>, nxt: nat, k: nat, hi: int)
    requires Sorted(m) && k <= |m| && Between(m, nxt, hi) && forall i | 0 <= i < k :: m[i].sn == nxt + i
    ensures Sorted(m[k..]) && Between(m[k..], nxt + k, hi)
  {
    if k > 0 {
      assert forall i | k <= i < |m| :: m[k - 1].sn < m[i].sn;
    }
  }

  lemma HasAfterDrain(m: seq<Packet>, nxt: nat, k: nat, n: u32)
    requires k <= |m| && forall i | 0 <= i < k :: m[i].sn == nxt + i
    ensures Holds(m, n) <==> nxt <= n < nxt + k || Holds(m[k..], n)
  {
    if Holds(m, n) {
      var i :| 0 <= i < |m| && m[i].sn == n;
      assert i >= k ==> m[k..][i - k].sn == n;
    }
    if nxt <= n < nxt + k {
      assert m[n - nxt].sn == n;
    }
  }

  /** The effect of one segment inside the window: `m` is the merged buffer, `k` the length of the
      numbered run at its front that is delivered. */
  ghost predicate Accepted(r: Receiver, r': Receiver, m: seq<Packet>, k: nat) {
    && k <= |m| && r'.nxt == r.nxt + k && r'.queue == r.queue + m[..k] && r'.buf == m[k..]
    && Sorted(m) && forall i | 0 <= i < k :: m[i].sn == r.nxt + i
  }

  lemma WindowIs(r: Receiver, wnd: u16, sn: u32)
    requires r.nxt < SN_LIMIT
    ensures InWindow(r, wnd, sn) <==> r.nxt <= sn < r.nxt + wnd
  {
  }

  lemma MergedFacts(buf: seq<Packet>, p: Packet, lo: nat, hi: nat) returns (i: nat)
    requires Sorted(buf) && Between(buf, lo, hi) && lo <= p.sn < hi <= TWO_31
    ensures var m := Insert(buf, p);
            Sorted(m) && Between(m, lo, hi) && |m| <= |buf| + 1 && (m == buf || InsertedAt(m, buf, p, i))
  {
    hide Insert, Sorted, Holds;
    i := InsertFacts(buf, p, p.sn);
  }

  lemma AcceptedFacts(r: Receiver, p: Packet, wnd: u16) returns (i: nat, k: nat)
    requires RcvInv(r, wnd) && r.nxt + |r.buf| < SN_LIMIT && r.nxt <= p.sn < r.nxt + wnd
    ensures var m := Insert(r.buf, p); var r' := Drain(r.(buf := m), wnd);
            && Accepted(r, r', m, k) && (m == r.buf || InsertedAt(m, r.buf, p, i))
            && RcvInv(r', wnd) && r'.nxt + |r'.buf| <= r.nxt + |r.buf| + 1
  {
    hide Insert, Drain, Sorted, InsertedAt;
    var m := Insert(r.buf, p);
    i := MergedFacts(r.buf, p, r.nxt, r.nxt + wnd);
    k := DrainFacts(r.(buf := m), wnd);
    RestOfSorted(m, r.nxt, k, r.nxt + wnd);
  }

  /** One segment, in full: outside the window nothing changes; inside, it is merged into the buffer
      and the consecutively numbered front is delivered. */
  lemma ParseDataFacts(r: Receiver, p: Packet, wnd: u16) returns (i: nat, k: nat)
    requires RcvInv(r, wnd) && r.nxt + |r.buf| < SN_LIMIT
    ensures var r', m := ParseData(r, p, wnd), Insert(r.buf, p);
            if r.nxt <= p.sn < r.nxt + wnd then Accepted(r, r', m, k) && (m == r.buf || InsertedAt(m, r.buf, p, i))
            else r' == r
    ensures var r' := ParseData(r, p, wnd); RcvInv(r', wnd) && r'.nxt + |r'.buf| <= r.nxt + |r.buf| + 1
  {
    hide Insert, Drain, InWindow, RcvInv, Accepted, InsertedAt;
    i, k := 0, 0;
    WindowIs(r, wnd, p.sn);
    if InWindow(r, wnd, p.sn) {
      i, k := AcceptedFacts(r, p, wnd);
    }
  }

  lemma ParseDataKeeps(r: Receiver, p: Packet, wnd: u16)
    requires RcvInv(r, wnd) && r.nxt + |r.buf| < SN_LIMIT
    ensures var r' := ParseData(r, p, wnd);
            RcvInv(r', wnd) && r.nxt <= r'.nxt && r'.nxt + |r'.buf| <= r.nxt + |r.buf| + 1
  {
    hide ParseData, Insert;
    var i, k := ParseDataFacts(r, p, wnd);
  }

  /** What a segment brings about, in terms of the numbers the receiver has. */
  lemma ParseDataHas(r: Receiver, p: Packet, wnd: u16, n: u32)
    requires RcvInv(r, wnd) && r.nxt + |r.buf| < SN_LIMIT
    ensures var r' := ParseData(r, p, wnd); r.nxt <= r'.nxt && (Has(r, n) ==> Has(r', n))
    ensures p.sn < r.nxt + wnd ==> Has(ParseData(r, p, wnd), p.sn)
  {
    hide Insert, Drain, InWindow, Holds;
    var i, k := ParseDataFacts(r, p, wnd);
    if r.nxt <= p.sn < r.nxt + wnd {
      var _ := InsertFacts(r.buf, p, n);
      var _ := InsertFacts(r.buf, p, p.sn);
      HasAfterDrain(Insert(r.buf, p), r.nxt, k, n);
      HasAfterDrain(Insert(r.buf, p), r.nxt, k, p.sn);
    }
  }

  /** The number of segments held beyond `nxt` never exceeds the window. */
  lemma BufferFitsWindow(r: Receiver, wnd: u16)
    requires RcvInv(r, wnd)
    ensures |r.buf| <= wnd && |r.queue| + WndUnused(r, wnd) == wnd
  {
    SortedIsShort(r.buf, r.nxt, r.nxt + wnd);
  }

  /** `recv` keeps the invariant; it takes exactly the front message and then the numbered run that
      now fits. */
  lemma RecvFacts(r: Receiver, wnd: u16, size: nat) returns (k: nat)
    requires RcvInv(r, wnd) && r.nxt + |r.buf| < SN_LIMIT && Recv(r, wnd, size).Ok?
    ensures var out, n := Recv(r, wnd, size).value, MessageEnd(ChunksOf(r.queue));
            && 0 < n && Accepted(r.(queue := r.queue[n..]), out.rcv, r.buf, k)
            && RcvInv(out.rcv, wnd) && |out.data| <= size
  {
    var n := MessageEnd(ChunksOf(r.queue));
    PeekSizeIsMessageSize(ChunksOf(r.queue));
    k := DrainFacts(r.(queue := r.queue[n..]), wnd);
    RestOfSorted(r.buf, r.nxt, k, r.nxt + wnd);
  }

}
