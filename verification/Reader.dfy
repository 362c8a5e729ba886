/** The reader: messages handed out through buffers of any size. */
module KcpReaders {
  import opened Arith
  import opened Errors
  import opened Wire
  import opened Chunks
  import opened Endpoint
  import opened KcpEngine
  import opened KcpPeers
  import R = Receiving
  import E = Engine
  import F = Flushing

  // ---- one read as a function ---------------------------------------------------

  datatype Poll<T> = Ready(value: T) | Pending

  /** One read: the endpoint and the unread rest of the last message after it, the message it popped, and
      the bytes it gave. */
  datatype Reading = Reading(st: E.State, rest: seq<byte>, popped: seq<seq<byte>>, out: Poll<Result<seq<byte>>>)

  /** A read into a buffer of `size` bytes. `locked` says that the engine cannot be had at this moment,
      `broken` that the socket is gone. */
  function Read(s: E.State, rest: seq<byte>, size: nat, locked: bool, broken: bool): Reading {
    if rest != [] then
      var k := Min(|rest|, size);
      Reading(s, rest[k..], [], Ready(Ok(rest[..k])))
    else if locked then Reading(s, [], [], Pending)
    else
      match Chunks.PeekSize(ChunksOf(s.rcv.queue))
      case Err(_) => Reading(s, [], [], if broken then Ready(Err(BrokenPipe)) else Pending)
      case Ok(n) =>
        var r := E.Receive(s, n);
        match r.result
        case Err(e) => Reading(r.st, [], [], Ready(Err(e)))
        case Ok(m) => var k := Min(|m|, size); Reading(r.st, m[k..], [m], Ready(Ok(m[..k])))
  }

  /** Once the size is known to be enough, `recv` does not depend on it. */
  lemma ReceiveFits(s: E.State, n: nat, size: nat)
    requires Chunks.PeekSize(ChunksOf(s.rcv.queue)) == Ok(n) && n <= size
    ensures E.Receive(s, size) == E.Receive(s, n) && E.Receive(s, n).result.Ok? && |E.Receive(s, n).result.value| == n
  {
    PeekSizeIsMessageSize(ChunksOf(s.rcv.queue));
  }

  // ---- many reads -------------------------------------------------------------------

  datatype Request = Request(size: nat, locked: bool, broken: bool)

  /** Where a sequence of reads has got to; `handed` is all they have given. */
  datatype Progress = Progress(st: E.State, rest: seq<byte>, popped: seq<seq<byte>>, handed: seq<byte>)

  function NextRead(p: Progress, q: Request): Progress {
    var r := Read(p.st, p.rest, q.size, q.locked, q.broken);
    var given := if r.out.Ready? && r.out.value.Ok? then r.out.value.value else [];
    Progress(r.st, r.rest, p.popped + r.popped, p.handed + given)
  }

  function Reads(s: E.State, qs: seq<Request>): Progress {
    if qs == [] then Progress(s, [], [], []) else NextRead(Reads(s, qs[..|qs| - 1]), qs[|qs| - 1])
  }

  /** The endpoint after its first `n` messages have been popped, and those messages. */
  function Pops(s: E.State, n: nat): (E.State, seq<seq<byte>>) {
    if n == 0 then (s, [])
    else
      var (t, ms) := Pops(s, n - 1);
      match Chunks.PeekSize(ChunksOf(t.rcv.queue))
      case Err(_) => (t, ms)
      case Ok(k) => var r := E.Receive(t, k); (r.st, ms + if r.result.Ok? then [r.result.value] else [])
  }

  /** One read pops at most one message, the next one, and neither loses nor repeats a byte of it. */
  lemma ReadFacts(s: E.State, rest: seq<byte>, q: Request)
    ensures var r := Read(s, rest, q.size, q.locked, q.broken);
            var given := if r.out.Ready? && r.out.value.Ok? then r.out.value.value else [];
            && |given| <= q.size && given + r.rest == rest + Flatten(r.popped) && |r.popped| <= 1
            && (r.popped == [] ==> r.st == s)
            && (r.popped != [] ==>
                  && Chunks.PeekSize(ChunksOf(s.rcv.queue)).Ok?
                  && var x := E.Receive(s, Chunks.PeekSize(ChunksOf(s.rcv.queue)).value);
                  r.st == x.st && x.result == Ok(r.popped[0]))
  {
    hide E.Receive;
    if rest == [] && !q.locked && Chunks.PeekSize(ChunksOf(s.rcv.queue)).Ok? {
      var n := Chunks.PeekSize(ChunksOf(s.rcv.queue)).value;
      ReceiveFits(s, n, n);
      var m := E.Receive(s, n).result.value;
      FlattenOne([], m);
      assert [] + [m] == [m];
    }
  }

  /** What a read gives: what is left of the last message, if anything is, or else the next message, as much of it
      as the buffer takes; and it waits, or reports a broken pipe, only when there is neither. */
  lemma ReadGives(s: E.State, rest: seq<byte>, q: Request)
    ensures var r := Read(s, rest, q.size, q.locked, q.broken); var peek := Chunks.PeekSize(ChunksOf(s.rcv.queue));
            if rest != [] || (!q.locked && peek.Ok?) then
              var m := if rest != [] then rest else E.Receive(s, peek.value).result.value;
              var k := Min(|m|, q.size);
              && r.out == Ready(Ok(m[..k])) && r.rest == m[k..]
              && (rest == [] ==> |m| == peek.value && r.popped == [m] && r.st == E.Receive(s, peek.value).st)
              && (rest != [] ==> r.popped == [] && r.st == s)
            else
              r == Reading(s, [], [], if !q.locked && q.broken then Ready(Err(BrokenPipe)) else Pending)
  {
    hide E.Receive, Chunks.PeekSize;
    if Chunks.PeekSize(ChunksOf(s.rcv.queue)).Ok? {
      var n := Chunks.PeekSize(ChunksOf(s.rcv.queue)).value;
      ReceiveFits(s, n, n);
    }
  }

  /** The same read `n` times. */
  function Repeat(p: Progress, q: Request, n: nat): Progress {
    if n == 0 then p else NextRead(Repeat(p, q, n - 1), q)
  }

  lemma {:induction false} RepeatFirst(p: Progress, q: Request, n: nat)
    ensures Repeat(p, q, n + 1) == Repeat(NextRead(p, q), q, n)
  {
    hide NextRead;
    if n > 0 {
      RepeatFirst(p, q, n - 1);
    }
  }

  function Load(r: R.Receiver): nat { |r.queue| + |r.buf| }

  lemma PopsLowerLoad(s: E.State, n: nat)
    requires R.RcvInv(s.rcv, s.cfg.rcvWnd) && ReceiveRoom(s, 0) && Chunks.PeekSize(ChunksOf(s.rcv.queue)) == Ok(n)
    ensures var t := E.Receive(s, n).st;
            R.RcvInv(t.rcv, t.cfg.rcvWnd) && ReceiveRoom(t, 0) && Load(t.rcv) < Load(s.rcv)
  {
    hide R.Drain, Chunks.PeekSize, MessageEnd, Bytes, R.RcvInv;
    ReceiveFits(s, n, n);
    RecvIsOk(s, n);
    var k := R.RecvFacts(s.rcv, s.cfg.rcvWnd, n);
  }

  lemma RecvIsOk(s: E.State, n: nat)
    requires E.Receive(s, n).result.Ok?
    ensures R.Recv(s.rcv, s.cfg.rcvWnd, n).Ok? && E.Receive(s, n).st.rcv == R.Recv(s.rcv, s.cfg.rcvWnd, n).value.rcv
    ensures E.Receive(s, n).st.cfg == s.cfg
  {
    hide R.Recv;
  }

  /** A reader that goes on reads everything: with any buffer of at least one byte, enough reads leave no message
      and no rest. */
  lemma {:induction false} ReadsExhaust(p: Progress, q: Request) returns (n: nat)
    requires R.RcvInv(p.st.rcv, p.st.cfg.rcvWnd) && ReceiveRoom(p.st, 0) && q.size > 0 && !q.locked
    ensures var e := Repeat(p, q, n); e.rest == [] && Chunks.PeekSize(ChunksOf(e.st.rcv.queue)).Err?
    decreases Load(p.st.rcv), |p.rest|
  {
    hide Read, E.Receive, Chunks.PeekSize, R.RcvInv, ReceiveRoom;
    ReadGives(p.st, p.rest, q);
    if p.rest == [] && Chunks.PeekSize(ChunksOf(p.st.rcv.queue)).Err? {
      n := 0;
    } else {
      if p.rest == [] {
        PopsLowerLoad(p.st, Chunks.PeekSize(ChunksOf(p.st.rcv.queue)).value);
      }
      n := ReadsExhaust(NextRead(p, q), q);
      RepeatFirst(p, q, n);
      n := n + 1;
    }
  }

  /** However the reads are sized, they pop the same messages in the same order, and what they have given,
      followed by the unread rest, is exactly those messages joined. */
  lemma {:induction false} ReadsDeliverMessages(s: E.State, qs: seq<Request>)
    ensures var p := Reads(s, qs); p.handed + p.rest == Flatten(p.popped) && (p.st, p.popped) == Pops(s, |p.popped|)
  {
    hide Read, E.Receive, Chunks.PeekSize;
    if qs != [] {
      var q := qs[|qs| - 1];
      ReadsDeliverMessages(s, qs[..|qs| - 1]);
      var p := Reads(s, qs[..|qs| - 1]);
      var r := Read(p.st, p.rest, q.size, q.locked, q.broken);
      ReadFacts(p.st, p.rest, q);
      var given := if r.out.Ready? && r.out.value.Ok? then r.out.value.value else [];
      Associative(p.handed, given, r.rest);
      Associative(p.handed, p.rest, Flatten(r.popped));
      FlattenAppend(p.popped, r.popped);
      if r.popped == [] {
        assert p.popped + r.popped == p.popped;
      } else {
        assert r.popped == [r.popped[0]];
      }
    }
  }

  lemma {:induction false} PopsGrow(s: E.State, m: nat, n: nat)
    requires m <= n
    ensures Pops(s, m).1 <= Pops(s, n).1
  {
    hide E.Receive, Chunks.PeekSize;
    if m < n {
      PopsGrow(s, m, n - 1);
    }
  }

  lemma FlattenPrefix<T>(a: seq<seq<T>>, b: seq<seq<T>>)
    requires a <= b
    ensures Flatten(a) <= Flatten(b)
  {
    assert b == a + b[|a|..];
    FlattenAppend(a, b[|a|..]);
  }

  lemma PrefixesCompare<T>(a: seq<T>, b: seq<T>, c: seq<T>)
    requires a <= c && b <= c
    ensures a <= b || b <= a
  {
    assert |a| <= |b| ==> a == b[..|a|];
    assert |b| <= |a| ==> b == a[..|b|];
  }

  /** The stream does not depend on the read sizes: of two ways to read the same endpoint, what one has
      given is the beginning of what the other has. */
  lemma ReadSizesDoNotMatter(s: E.State, qs: seq<Request>, rs: seq<Request>)
    ensures var a, b := Reads(s, qs).handed, Reads(s, rs).handed; a <= b || b <= a
  {
    hide Reads, Pops, Flatten;
    ReadsDeliverMessages(s, qs);
    ReadsDeliverMessages(s, rs);
    var m, n := |Reads(s, qs).popped|, |Reads(s, rs).popped|;
    var k := Max(m, n);
    PopsGrow(s, m, k);
    PopsGrow(s, n, k);
    FlattenPrefix(Reads(s, qs).popped, Pops(s, k).1);
    FlattenPrefix(Reads(s, rs).popped, Pops(s, k).1);
    PrefixesCompare(Reads(s, qs).handed, Reads(s, rs).handed, Flatten(Pops(s, k).1));
  }

  // ---- the reader -----------------------------------------------------------------

  datatype ReaderState = Begin | ReadBuff

  /** `popped` are the messages the reader has taken from the engine, `handed` the bytes it has given to
      its callers. */
  class KcpReader {
    const peer: KcpPeer
    var cache: array<byte>
    var cacheSiz: nat
    var cachePos: nat
    var state: ReaderState

    ghost var popped: seq<seq<byte>>
    ghost var handed: seq<byte>

    ghost function Rest(): seq<byte>
      requires cachePos <= cacheSiz <= cache.Length
      reads this, cache
    {
      cache[cachePos..cacheSiz]
    }

    ghost predicate Valid()
      reads this, cache
    {
      && cachePos <= cacheSiz <= cache.Length
      && (state.ReadBuff? ==> cachePos == cacheSiz)
      && handed + Rest() == Flatten(popped)
    }

    constructor (peer: KcpPeer)
      ensures Valid() && this.peer == peer && popped == [] && handed == [] && fresh(cache)
    {
      this.peer := peer;
      cache := new byte[0];
      cacheSiz, cachePos := 0, 0;
      state := Begin;
      popped, handed := [], [];
    }

    /** Hands out what is in the cache. */
    method ReadCache(buf: array<byte>) returns (n: nat)
      requires Valid() && cachePos < cacheSiz && buf != cache
      modifies this`cachePos, this`handed, buf
      ensures Valid() && n == Min(old(cacheSiz - cachePos), buf.Length)
      ensures buf[..] == old(Rest())[..n] + old(buf[..])[n..] && Rest() == old(Rest())[n..]
      ensures handed == old(handed) + buf[..n]
    {
      n := Min(cacheSiz - cachePos, buf.Length);
      ghost var rest := Rest();
      forall i | 0 <= i < n {
        buf[i] := cache[cachePos + i];
      }
      cachePos := cachePos + n;
      assert buf[..n] == rest[..n];
      Associative(handed, rest[..n], rest[n..]);
      handed := handed + buf[..n];
    }

    static lemma OneMore(handed: seq<byte>, popped: seq<seq<byte>>, m: seq<byte>)
      requires handed == Flatten(popped)
      ensures handed + m == Flatten(popped + [m])
    {
      FlattenOne(popped, m);
    }

    static lemma EmptyRest(handed: seq<byte>, rest: seq<byte>)
      requires rest == []
      ensures handed + rest == handed
    {
    }

    /** Pops the next message, of `size` bytes, into the cache, which is made larger when necessary. */
    method FillCache(size: nat)
      requires Valid() && cachePos == cacheSiz && peer.Valid() && ReceiveRoom(peer.kcp.State(), 0)
      requires Chunks.PeekSize(ChunksOf(peer.kcp.State().rcv.queue)) == Ok(size)
      modifies this`cache, this`cacheSiz, this`cachePos, this`popped, this`state, cache, peer`since, peer.kcp
      ensures Valid() && peer.Valid() && state == Begin && (fresh(cache) || cache == old(cache))
      ensures var x := E.Receive(old(peer.kcp.State()), size);
              peer.kcp.State() == x.st && x.result == Ok(Rest()) && |Rest()| == size && popped == old(popped) + [Rest()]
    {
      hide E.Receive, Chunks.PeekSize, ReceiveRoom, Flatten, KcpPeer.Valid, Kcp.State;
      EmptyRest(handed, Rest());
      if cache.Length < size {
        cache := new byte[size];
      }
      ReceiveFits(peer.kcp.State(), size, cache.Length);
      var r := peer.RecvBuf(cache);
      cacheSiz := r.value;
      cachePos := 0;
      state := Begin;
      OneMore(handed, popped, Rest());
      popped := popped + [Rest()];
    }

    /** Pops the next message straight into the caller's buffer. */
    method ReadDirect(buf: array<byte>, ghost size: nat) returns (n: nat)
      requires Valid() && cachePos == cacheSiz && peer.Valid() && ReceiveRoom(peer.kcp.State(), 0) && buf != cache
      requires Chunks.PeekSize(ChunksOf(peer.kcp.State().rcv.queue)) == Ok(size) && size <= buf.Length
      modifies this`popped, this`handed, buf, peer`since, peer.kcp
      ensures Valid() && peer.Valid() && n == size
      ensures var x := E.Receive(old(peer.kcp.State()), size);
              && peer.kcp.State() == x.st && x.result == Ok(buf[..n]) && buf[n..] == old(buf[..])[n..]
              && popped == old(popped) + [buf[..n]] && handed == old(handed) + buf[..n]
    {
      hide E.Receive, Chunks.PeekSize, ReceiveRoom, Flatten, KcpPeer.Valid, Kcp.State;
      EmptyRest(handed, Rest());
      ReceiveFits(peer.kcp.State(), size, buf.Length);
      var r := peer.RecvBuf(buf);
      n := r.value;
      OneMore(handed, popped, buf[..n]);
      popped := popped + [buf[..n]];
      handed := handed + buf[..n];
      EmptyRest(handed, Rest());
    }

    /** What a read into `size` bytes is to do from here on, with the messages popped so far. */
    ghost function Goal(size: nat, locked: bool): Reading
      requires cachePos <= cacheSiz <= cache.Length
      reads this, cache, peer, peer.kcp
    {
      var x := Read(peer.kcp.State(), Rest(), size, locked, peer.isBrokenPipe);
      x.(popped := popped + x.popped)
    }

    /** A poll that has met its goal: the caller's buffer starts with the bytes, and nothing else of it has changed. */
    twostate predicate Meets(goal: Reading, buf: array<byte>, new r: Poll<Result<nat>>)
      requires cachePos <= cacheSiz <= cache.Length
      reads this, cache, buf, peer, peer.kcp
    {
      && peer.kcp.State() == goal.st && Rest() == goal.rest && popped == goal.popped
      && match goal.out
         case Pending => r.Pending? && buf[..] == old(buf[..]) && handed == old(handed)
         case Ready(Err(e)) => r == Ready(Err(e)) && buf[..] == old(buf[..]) && handed == old(handed)
         case Ready(Ok(bytes)) =>
           && r == Ready(Ok(|bytes|)) && |bytes| <= buf.Length && buf[..] == bytes + old(buf[..])[|bytes|..]
           && handed == old(handed) + bytes
    }

    /** The second half of the state machine: asks the engine. It is `done` unless it has filled the cache. */
    method Fetch(buf: array<byte>, locked: bool) returns (done: bool, r: Poll<Result<nat>>)
      requires Valid() && cachePos == cacheSiz && peer.Valid() && ReceiveRoom(peer.kcp.State(), 0) && buf != cache
      modifies this`cache, this`cacheSiz, this`cachePos, this`popped, this`handed, this`state, cache, buf, peer`since,
               peer.kcp
      ensures Valid() && peer.Valid() && (fresh(cache) || cache == old(cache))
      ensures done ==> Meets(old(Goal(buf.Length, locked)), buf, r)
      ensures !done ==>
                && cachePos < cacheSiz && Goal(buf.Length, locked) == old(Goal(buf.Length, locked))
                && buf[..] == old(buf[..]) && handed == old(handed)
    {
      hide E.Receive, Chunks.PeekSize, ReceiveRoom, Flatten, KcpPeer.Valid, Kcp.State;
      if locked {
        return true, Pending;
      }
      var peek := peer.kcp.PeekSize();
      peer.kcp.StateParts();
      if peek.Err? {
        if peer.isBrokenPipe {
          return true, Ready(Err(BrokenPipe));
        }
        state := Begin;
        return true, Pending;
      }
      if peek.value > buf.Length {
        FillCache(peek.value);
        return false, Pending;
      }
      var n := ReadDirect(buf, peek.value);
      return true, Ready(Ok(n));
    }

    /** The state machine, run until it gives bytes, fails, or has to wait. */
    method PollRecv(buf: array<byte>, locked: bool) returns (r: Poll<Result<nat>>)
      requires Valid() && peer.Valid() && ReceiveRoom(peer.kcp.State(), 0) && buf != cache
      modifies this`cache, this`cacheSiz, this`cachePos, this`popped, this`handed, this`state, cache, buf, peer`since,
               peer.kcp
      ensures Valid() && peer.Valid() && (fresh(cache) || cache == old(cache))
      ensures Meets(old(Goal(buf.Length, locked)), buf, r)
    {
      hide E.Receive, Chunks.PeekSize, ReceiveRoom, Flatten, KcpPeer.Valid, Kcp.State;
      while true
        invariant Valid() && peer.Valid() && (fresh(cache) || cache == old(cache)) && buf != cache
        invariant Goal(buf.Length, locked) == old(Goal(buf.Length, locked))
        invariant buf[..] == old(buf[..]) && handed == old(handed)
        invariant cachePos == cacheSiz ==> ReceiveRoom(peer.kcp.State(), 0)
        decreases if cachePos < cacheSiz then 0 else if state == ReadBuff then 1 else 2
      {
        match state {
          case Begin =>
            if cachePos < cacheSiz {
              var n := ReadCache(buf);
              return Ready(Ok(n));
            }
            state := ReadBuff;
          case ReadBuff =>
            var done;
            done, r := Fetch(buf, locked);
            if done {
              return;
            }
        }
      }
    }

    /** A finished poll leaves the state machine at its beginning. */
    method PollRead(buf: array<byte>, locked: bool) returns (r: Poll<Result<nat>>)
      requires Valid() && peer.Valid() && ReceiveRoom(peer.kcp.State(), 0) && buf != cache
      modifies this`cache, this`cacheSiz, this`cachePos, this`popped, this`handed, this`state, cache, buf, peer`since,
               peer.kcp
      ensures Valid() && peer.Valid() && (fresh(cache) || cache == old(cache)) && (r.Ready? ==> state == Begin)
      ensures Meets(old(Goal(buf.Length, locked)), buf, r)
    {
      hide E.Receive, Chunks.PeekSize, ReceiveRoom, Flatten, KcpPeer.Valid, Kcp.State, Read;
      r := PollRecv(buf, locked);
      if r.Ready? {
        state := Begin;
      }
    }
  }
}
