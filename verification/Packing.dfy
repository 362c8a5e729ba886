/** How segments are packed into datagrams, and which of the kept segments a flush transmits. */
module Packing {
  import opened Arith
  import opened Wire
  import opened Chunks
  import opened Sending

  /** The output side during one flush: what the buffer holds, what has been sent, how many more
      datagrams the socket takes before it fails, and whether it has failed. */
  datatype Out = Out(buf: Datagram, sent: seq<Datagram>, limit: nat, ok: bool)

  function Size(ps: Datagram): nat { if ps == [] then 0 else Size(ps[..|ps| - 1]) + EncodedLen(ps[|ps| - 1]) }

  lemma {:induction false} SizeIsLength(ps: Datagram)
    ensures Size(ps) == |EncodeAll(ps)|
  {
    hide Encode;
    if ps != [] {
      var front, p := ps[..|ps| - 1], ps[|ps| - 1];
      SizeIsLength(front);
      EncodeAllAppend(front, [p]);
      assert ps == front + [p];
      assert EncodeAll([p]) == Encode(p) + EncodeAll([]);
    }
  }

  /** Appends a segment, sending what is buffered first when it would not fit. */
  function Put(o: Out, p: Packet, mtu: nat): Out {
    if !o.ok then o
    else if Size(o.buf) + EncodedLen(p) > mtu then
      if o.limit == 0 then o.(ok := false) else Out([p], o.sent + [o.buf], o.limit - 1, true)
    else o.(buf := o.buf + [p])
  }

  function PutAll(o: Out, ps: seq<Packet>, mtu: nat): Out {
    if ps == [] then o else Put(PutAll(o, ps[..|ps| - 1], mtu), ps[|ps| - 1], mtu)
  }

  /** Sends what is left. */
  function Finish(o: Out): Out {
    if !o.ok || o.buf == [] then o
    else if o.limit == 0 then o.(ok := false)
    else Out([], o.sent + [o.buf], o.limit - 1, true)
  }

  function Contents(o: Out): seq<Packet> { Flatten(o.sent) + o.buf }

  /** Every datagram is non-empty and fits the mtu, and so does the buffer. */
  ghost predicate Packed(o: Out, mtu: nat) {
    Size(o.buf) <= mtu && forall i | 0 <= i < |o.sent| :: o.sent[i] != [] && Size(o.sent[i]) <= mtu
  }

  ghost predicate Small(ps: seq<Packet>, mtu: nat) { forall i | 0 <= i < |ps| :: EncodedLen(ps[i]) <= mtu }

  lemma SizeSnoc(ps: Datagram, p: Packet)
    ensures Size(ps + [p]) == Size(ps) + EncodedLen(p)
  {
    assert (ps + [p])[..|ps|] == ps;
  }

  lemma PutFacts(o: Out, p: Packet, mtu: nat)
    ensures var o' := Put(o, p, mtu);
            && Contents(o') == Contents(o) + (if o'.ok then [p] else [])
            && o'.limit + |o'.sent| == o.limit + |o.sent| && o.sent <= o'.sent && (o'.ok ==> o.ok)
            && (o'.ok ==> o'.buf != [] && o'.buf[|o'.buf| - 1] == p)
            && (o.ok && !o'.ok ==> o'.limit == 0)
  {
    var o' := Put(o, p, mtu);
    if o.ok {
      if Size(o.buf) + EncodedLen(p) > mtu {
        if o.limit > 0 {
          FlattenOne(o.sent, o.buf);
        }
      } else {
        assert Flatten(o.sent) + (o.buf + [p]) == Contents(o) + [p];
      }
    }
  }

  lemma PutPacks(o: Out, p: Packet, mtu: nat)
    requires Packed(o, mtu) && EncodedLen(p) <= mtu
    ensures Packed(Put(o, p, mtu), mtu)
  {
    SizeSnoc(o.buf, p);
    SizeSnoc([], p);
    assert [] + [p] == [p];
  }

  /** Without room, nothing but the failure changes; with enough room, nothing fails. */
  lemma {:induction false} PutAllFacts(o: Out, ps: seq<Packet>, mtu: nat) returns (k: nat)
    ensures var o' := PutAll(o, ps, mtu);
            && k <= |ps| && (o'.ok ==> k == |ps|) && Contents(o') == Contents(o) + ps[..k]
            && o'.limit + |o'.sent| == o.limit + |o.sent| && o.sent <= o'.sent && (o'.ok ==> o.ok)
            && (o'.ok && ps != [] ==> o'.buf != [] && o'.buf[|o'.buf| - 1] == ps[|ps| - 1])
            && (o.ok && |ps| <= o.limit ==> o'.ok && |o'.sent| <= |o.sent| + |ps|)
            && (o.ok && !o'.ok ==> o'.limit == 0 && k < |ps|)
  {
    hide Contents, Put;
    k := 0;
    if ps == [] {
      assert Contents(o) + ps[..0] == Contents(o);
    } else {
      var n := |ps| - 1;
      var front, p := ps[..n], ps[n];
      k := PutAllFacts(o, front, mtu);
      var mid := PutAll(o, front, mtu);
      PutFacts(mid, p, mtu);
      PutSends(mid, p, mtu);
      if Put(mid, p, mtu).ok {
        assert front[..k] == front;
        assert ps[..n + 1] == front + [p];
        k := n + 1;
        assert Contents(o) + front + [p] == Contents(o) + ps[..k];
      } else {
        assert front[..k] == ps[..k];
        assert Contents(o) + ps[..k] + [] == Contents(o) + ps[..k];
      }
    }
  }

  lemma PutSends(o: Out, p: Packet, mtu: nat)
    ensures var o' := Put(o, p, mtu);
            (o.ok && o.limit > 0 ==> o'.ok) && |o'.sent| <= |o.sent| + 1
  {
  }

  lemma {:induction false} PutAllPacks(o: Out, ps: seq<Packet>, mtu: nat)
    requires Packed(o, mtu) && Small(ps, mtu)
    ensures Packed(PutAll(o, ps, mtu), mtu)
  {
    hide Packed, Put;
    if ps != [] {
      PutAllPacks(o, ps[..|ps| - 1], mtu);
      PutPacks(PutAll(o, ps[..|ps| - 1], mtu), ps[|ps| - 1], mtu);
    }
  }

  lemma {:induction false} PutAllAppend(o: Out, ps: seq<Packet>, qs: seq<Packet>, mtu: nat)
    ensures PutAll(o, ps + qs, mtu) == PutAll(PutAll(o, ps, mtu), qs, mtu)
  {
    hide Put;
    if qs == [] {
      assert ps + qs == ps;
    } else {
      var n := |qs| - 1;
      assert (ps + qs)[..|ps| + n] == ps + qs[..n];
      PutAllAppend(o, ps, qs[..n], mtu);
    }
  }

  lemma FinishFacts(o: Out)
    ensures var o' := Finish(o);
            && Contents(o') == Contents(o) && o'.limit + |o'.sent| == o.limit + |o.sent| && o.sent <= o'.sent
            && (o'.ok ==> o.ok && o'.buf == []) && (o.ok && o.limit > 0 ==> o'.ok)
            && (o'.ok && o.buf != [] ==> o'.sent == o.sent + [o.buf]) && (o.ok && !o'.ok ==> o'.limit == 0)
  {
    if o.ok && o.buf != [] && o.limit > 0 {
      FlattenOne(o.sent, o.buf);
      assert Flatten(o.sent) + o.buf + [] == Contents(o);
    }
  }

  lemma FinishPacks(o: Out, mtu: nat)
    requires Packed(o, mtu)
    ensures Packed(Finish(o), mtu)
  {
  }

  // ---- no datagram is sent early -------------------------------------------------

  /** `p` does not fit behind `d`. */
  predicate TooMuch(d: Datagram, p: Packet, mtu: nat) { Size(d) + EncodedLen(p) > mtu }

  /** Of two datagrams in a row, the first segment of the second did not fit into the first. */
  ghost predicate Tight(sent: seq<Datagram>, mtu: nat) {
    forall i, j | 0 <= i < |sent| && j == i + 1 < |sent| :: sent[j] != [] && TooMuch(sent[i], sent[j][0], mtu)
  }

  /** What a datagram is followed by did not fit into it. */
  ghost predicate Greedy(o: Out, mtu: nat) {
    && Tight(o.sent, mtu) && (o.sent != [] && o.buf != [] ==> TooMuch(o.sent[|o.sent| - 1], o.buf[0], mtu))
    && (o.sent != [] ==> o.buf != [])
  }

  lemma TightSnoc(sent: seq<Datagram>, d: Datagram, mtu: nat)
    requires Tight(sent, mtu) && d != [] && (sent != [] ==> TooMuch(sent[|sent| - 1], d[0], mtu))
    ensures Tight(sent + [d], mtu)
  {
    hide TooMuch;
  }

  lemma PutIsGreedy(o: Out, p: Packet, mtu: nat)
    requires Greedy(o, mtu) && (o.buf == [] ==> EncodedLen(p) <= mtu)
    ensures Greedy(Put(o, p, mtu), mtu)
  {
    hide TooMuch, EncodedLen, Tight, Size;
    TooMuchIs(o.buf, p, mtu);
    if o.buf != [] {
      TightSnoc(o.sent, o.buf, mtu);
      assert (o.buf + [p])[0] == o.buf[0];
    }
  }

  lemma TooMuchIs(d: Datagram, p: Packet, mtu: nat)
    ensures TooMuch(d, p, mtu) <==> Size(d) + EncodedLen(p) > mtu
    ensures d == [] && EncodedLen(p) <= mtu ==> !TooMuch(d, p, mtu)
  {
  }

  lemma {:induction false} PutAllIsGreedy(o: Out, ps: seq<Packet>, mtu: nat)
    requires Greedy(o, mtu) && Small(ps, mtu)
    ensures Greedy(PutAll(o, ps, mtu), mtu)
  {
    hide Greedy, Put, EncodedLen;
    if ps != [] {
      PutAllIsGreedy(o, ps[..|ps| - 1], mtu);
      PutIsGreedy(PutAll(o, ps[..|ps| - 1], mtu), ps[|ps| - 1], mtu);
    }
  }

  lemma FinishIsGreedy(o: Out, mtu: nat)
    requires Greedy(o, mtu)
    ensures Tight(Finish(o).sent, mtu)
  {
    hide TooMuch, Tight;
    if o.buf != [] {
      TightSnoc(o.sent, o.buf, mtu);
    }
  }

  // ---- which segments are due ---------------------------------------------------

  /** What the transmission loop of one flush works with. */
  datatype Round = Round(current: u32, rto: u32, nodelay: bool, resent: u32, wnd: u16, una: u32, mtu: nat,
      deadLink: u32)

  datatype Due = NotDue | First | Timeout | Early

  function DueOf(e: Round, s: Segment): Due {
    if s.xmit == 0 then First
    else if Timediff(e.current, s.resendts) >= 0 then Timeout
    else if s.fastack >= e.resent then Early
    else NotDue
  }

  /** A segment after the loop has passed it. */
  function Restamped(e: Round, s: Segment): Segment {
    match DueOf(e, s)
    case NotDue => s
    case First =>
      var minimum := if e.nodelay then 0 else e.rto / 8;
      s.(xmit := Add32(s.xmit, 1), rto := e.rto, resendts := Add32(Add32(e.current, e.rto), minimum),
         ts := e.current, wnd := e.wnd, una := e.una)
    case Timeout =>
      var rto := Add32(s.rto, if e.nodelay then e.rto / 2 else e.rto);
      s.(xmit := Add32(s.xmit, 1), rto := rto, resendts := Add32(e.current, rto),
         ts := e.current, wnd := e.wnd, una := e.una)
    case Early =>
      s.(xmit := Add32(s.xmit, 1), fastack := 0, resendts := Add32(e.current, s.rto),
         ts := e.current, wnd := e.wnd, una := e.una)
  }

  datatype Tx = Tx(done: seq<Segment>, out: Out, lost: bool, change: nat, xmit: u32, dead: bool)

  /** One turn of the loop. After a failed send the loop is over and the rest of the buffer untouched. */
  function TxOne(e: Round, t: Tx, s: Segment): Tx {
    var d := DueOf(e, s);
    if !t.out.ok || d.NotDue? then t.(done := t.done + [s])
    else
      var s' := Restamped(e, s);
      var out := Put(t.out, PacketOf(s'), e.mtu);
      Tx(t.done + [s'], out, t.lost || d.Timeout?, if d.Early? then t.change + 1 else t.change,
         if d.Timeout? then Add32(t.xmit, 1) else t.xmit, t.dead || (out.ok && s'.xmit >= e.deadLink))
  }

  function TxAll(e: Round, t: Tx, segs: seq<Segment>): Tx {
    if segs == [] then t else TxOne(e, TxAll(e, t, segs[..|segs| - 1]), segs[|segs| - 1])
  }

  /** The packets of the due segments, each once, in buffer order. */
  function DuePackets(e: Round, segs: seq<Segment>): (ps: seq<Packet>)
    ensures |ps| <= |segs|
  {
    if segs == [] then []
    else
      var s := segs[|segs| - 1];
      DuePackets(e, segs[..|segs| - 1]) + (if DueOf(e, s).NotDue? then [] else [PacketOf(Restamped(e, s))])
  }

  /** Sameness in everything that identifies a segment and its data. */
  predicate SameSegment(a: Segment, b: Segment) {
    a.conv == b.conv && a.cmd == b.cmd && a.frg == b.frg && a.sn == b.sn && a.data == b.data
  }

  ghost predicate SameSegments(a: seq<Segment>, b: seq<Segment>) {
    |a| == |b| && forall i | 0 <= i < |a| :: SameSegment(a[i], b[i])
  }

  /** Every segment has been passed, and: every segment has been passed or left as it was. */
  ghost predicate AllPassed(e: Round, segs: seq<Segment>, done: seq<Segment>) {
    |segs| == |done| && forall i | 0 <= i < |segs| :: done[i] == Restamped(e, segs[i])
  }

  ghost predicate SomePassed(e: Round, segs: seq<Segment>, done: seq<Segment>) {
    |segs| == |done| && forall i | 0 <= i < |segs| :: done[i] == segs[i] || done[i] == Restamped(e, segs[i])
  }

  /** What one turn does: `x` is the segment as it leaves it. */
  ghost predicate TxStep(e: Round, t: Tx, s: Segment, r: Tx, x: Segment) {
    && r.done == t.done + [x] && SameSegment(s, x) && (x == s || x == Restamped(e, s))
    && r.out == (if DueOf(e, s).NotDue? then t.out else Put(t.out, PacketOf(Restamped(e, s)), e.mtu))
    && (r.out.ok ==> t.out.ok && x == Restamped(e, s))
  }

  lemma TxOneFacts(e: Round, t: Tx, s: Segment) returns (x: Segment)
    ensures TxStep(e, t, s, TxOne(e, t, s), x)
  {
    hide Put, Restamped, DueOf, SameSegment;
    RestampedIsSame(e, s);
    SameAsItself(s);
    PutSticks(t.out, PacketOf(Restamped(e, s)), e.mtu);
    x := if !t.out.ok || DueOf(e, s).NotDue? then s else Restamped(e, s);
  }

  lemma SameAsItself(s: Segment)
    ensures SameSegment(s, s)
  {
  }

  lemma FirstPassed(e: Round, segs: seq<Segment>, done: seq<Segment>)
    requires AllPassed(e, segs, done)
    ensures |done| == |segs| && (segs != [] ==> done[0] == Restamped(e, segs[0]))
  {
  }

  lemma NothingPassed(e: Round)
    ensures SameSegments([], []) && AllPassed(e, [], []) && SomePassed(e, [], [])
  {
  }

  /** Identity and the passing of segments carry over one turn of the loop. */
  lemma PassedSnoc(e: Round, t: Tx, segs: seq<Segment>, s: Segment, r: Tx, x: Segment)
    requires TxStep(e, t, s, r, x) && SameSegments(segs, t.done) && SomePassed(e, segs, t.done)
    ensures SameSegments(segs + [s], r.done) && SomePassed(e, segs + [s], r.done)
    ensures r.out.ok && AllPassed(e, segs, t.done) ==> AllPassed(e, segs + [s], r.done)
  {
    hide Put, Restamped, DueOf, SameSegment;
  }

  lemma DueSnoc(e: Round, segs: seq<Segment>, n: nat, o: Out)
    requires |segs| == n + 1
    ensures PutAll(o, DuePackets(e, segs), e.mtu) ==
            var before := PutAll(o, DuePackets(e, segs[..n]), e.mtu);
            if DueOf(e, segs[n]).NotDue? then before else Put(before, PacketOf(Restamped(e, segs[n])), e.mtu)
  {
    hide Put, Restamped, DueOf;
    var ps := DuePackets(e, segs[..n]);
    if DueOf(e, segs[n]).NotDue? {
      assert ps + [] == ps;
    } else {
      assert (ps + [PacketOf(Restamped(e, segs[n]))])[..|ps|] == ps;
    }
  }

  /** The loop as a whole: what it puts out is the packing of the due packets, it changes no segment's
      identity, and unless a send fails it has passed every segment. */
  lemma {:induction false} TxFacts(e: Round, t: Tx, segs: seq<Segment>)
    requires t.done == []
    ensures var r := TxAll(e, t, segs);
            && r.out == PutAll(t.out, DuePackets(e, segs), e.mtu)
            && SameSegments(segs, r.done) && SomePassed(e, segs, r.done)
            && (r.out.ok ==> AllPassed(e, segs, r.done))
  {
    hide Put, Restamped, DueOf, TxOne, SameSegments, AllPassed, SomePassed, TxStep, DuePackets;
    NothingPassed(e);
    if segs == [] {
      NothingDue(e, t.out);
    } else {
      var n := |segs| - 1;
      TxFacts(e, t, segs[..n]);
      var r := TxAll(e, t, segs[..n]);
      var x := TxOneFacts(e, r, segs[n]);
      TxStepOutput(e, r, segs[n], TxOne(e, r, segs[n]), x);
      PassedSnoc(e, r, segs[..n], segs[n], TxOne(e, r, segs[n]), x);
      assert segs == segs[..n] + [segs[n]];
      DueSnoc(e, segs, n, t.out);
    }
  }

  lemma NothingDue(e: Round, o: Out)
    ensures PutAll(o, DuePackets(e, []), e.mtu) == o
  {
  }

  lemma TxStepOutput(e: Round, t: Tx, s: Segment, r: Tx, x: Segment)
    requires TxStep(e, t, s, r, x)
    ensures r.out == (if DueOf(e, s).NotDue? then t.out else Put(t.out, PacketOf(Restamped(e, s)), e.mtu))
    ensures r.out.ok ==> t.out.ok
  {
    hide Put, Restamped, DueOf, SameSegment;
  }

  lemma PutSticks(o: Out, p: Packet, mtu: nat)
    ensures !o.ok ==> Put(o, p, mtu) == o
  {
  }

  lemma RestampedIsSame(e: Round, s: Segment)
    ensures SameSegment(s, Restamped(e, s)) && (DueOf(e, s).NotDue? ==> Restamped(e, s) == s)
    ensures !DueOf(e, s).NotDue? ==> var s' := Restamped(e, s); s'.wnd == e.wnd && s'.una == e.una && s'.ts == e.current
  {
  }

  /** Every transmitted packet is a due segment's, in the order of the buffer. */
  lemma {:induction false} DueOrigin(e: Round, segs: seq<Segment>, k: nat) returns (i: nat)
    requires k < |DuePackets(e, segs)|
    ensures k <= i < |segs| && DuePackets(e, segs)[k] == PacketOf(Restamped(e, segs[i])) && !DueOf(e, segs[i]).NotDue?
  {
    hide Restamped, DueOf;
    var n := |segs| - 1;
    if k < |DuePackets(e, segs[..n])| {
      i := DueOrigin(e, segs[..n], k);
    } else {
      i := n;
    }
  }

  /** And every due segment's packet is transmitted. */
  lemma {:induction false} DueIsSent(e: Round, segs: seq<Segment>, i: nat) returns (k: nat)
    requires i < |segs| && !DueOf(e, segs[i]).NotDue?
    ensures k < |DuePackets(e, segs)| && DuePackets(e, segs)[k] == PacketOf(Restamped(e, segs[i]))
  {
    hide Restamped, DueOf;
    var n := |segs| - 1;
    if i < n {
      k := DueIsSent(e, segs[..n], i);
    } else {
      k := |DuePackets(e, segs[..n])|;
    }
  }

  ghost predicate Ascending(ps: seq<Packet>) { forall i, j | 0 <= i < j < |ps| :: ps[i].sn < ps[j].sn }

  /** No segment is transmitted twice in one flush, and the order is that of the numbers. */
  lemma {:induction false} DueInOrder(e: Round, segs: seq<Segment>)
    requires InOrder(segs)
    ensures Ascending(DuePackets(e, segs))
  {
    hide Restamped, DueOf;
    if segs != [] {
      var n := |segs| - 1;
      DueInOrder(e, segs[..n]);
      var ps := DuePackets(e, segs[..n]);
      RestampedIsSame(e, segs[n]);
      forall i | 0 <= i < |ps| ensures ps[i].sn < segs[n].sn {
        var o := DueOrigin(e, segs[..n], i);
        RestampedIsSame(e, segs[o]);
        assert segs[..n][o] == segs[o];
      }
    }
  }

  // ---- what the loop reports ------------------------------------------------------

  ghost predicate AnyDue(e: Round, segs: seq<Segment>, d: Due) { exists i | 0 <= i < |segs| :: DueOf(e, segs[i]) == d }

  /** A segment that is transmitted for at least the `deadLink`-th time. */
  predicate Dying(e: Round, s: Segment) { !DueOf(e, s).NotDue? && Restamped(e, s).xmit >= e.deadLink }

  ghost predicate AnyDying(e: Round, segs: seq<Segment>) { exists i | 0 <= i < |segs| :: Dying(e, segs[i]) }

  /** How many segments have timed out. */
  function Timeouts(e: Round, segs: seq<Segment>): nat {
    if segs == [] then 0
    else Timeouts(e, segs[..|segs| - 1]) + if DueOf(e, segs[|segs| - 1]).Timeout? then 1 else 0
  }

  lemma AnyDueSnoc(e: Round, segs: seq<Segment>, d: Due)
    requires segs != []
    ensures AnyDue(e, segs, d) <==> AnyDue(e, segs[..|segs| - 1], d) || DueOf(e, segs[|segs| - 1]) == d
    ensures AnyDying(e, segs) <==> AnyDying(e, segs[..|segs| - 1]) || Dying(e, segs[|segs| - 1])
  {
    hide DueOf, Dying;
    var n := |segs| - 1;
    if AnyDue(e, segs[..n], d) {
      var i :| 0 <= i < n && DueOf(e, segs[..n][i]) == d;
      assert DueOf(e, segs[i]) == d;
    }
    if AnyDue(e, segs, d) && DueOf(e, segs[n]) != d {
      var i :| 0 <= i < |segs| && DueOf(e, segs[i]) == d;
      assert DueOf(e, segs[..n][i]) == d;
    }
    if AnyDying(e, segs[..n]) {
      var i :| 0 <= i < n && Dying(e, segs[..n][i]);
      assert Dying(e, segs[i]);
    }
    if AnyDying(e, segs) && !Dying(e, segs[n]) {
      var i :| 0 <= i < |segs| && Dying(e, segs[i]);
      assert Dying(e, segs[..n][i]);
    }
  }

  lemma TxOneReport(e: Round, t: Tx, s: Segment)
    requires TxOne(e, t, s).out.ok
    ensures var r := TxOne(e, t, s);
            && t.out.ok && r.lost == (t.lost || DueOf(e, s).Timeout?)
            && (r.change > 0 <==> t.change > 0 || DueOf(e, s).Early?)
            && r.dead == (t.dead || Dying(e, s)) && r.xmit == if DueOf(e, s).Timeout? then Add32(t.xmit, 1) else t.xmit
  {
    hide Put, Restamped;
    PutSticks(t.out, PacketOf(Restamped(e, s)), e.mtu);
  }

  /** What a loop that passes every segment reports: whether one has timed out and whether one was resent early,
      how many timeouts there were in all, and whether one was sent too often. */
  lemma {:induction false} TxReport(e: Round, t: Tx, segs: seq<Segment>)
    requires TxAll(e, t, segs).out.ok
    ensures var r := TxAll(e, t, segs);
            && (r.lost <==> t.lost || AnyDue(e, segs, Timeout))
            && (r.change > 0 <==> t.change > 0 || AnyDue(e, segs, Early))
            && (r.dead <==> t.dead || AnyDying(e, segs)) && r.xmit == (t.xmit + Timeouts(e, segs)) % TWO_32
  {
    hide TxOne, DueOf, Dying, AnyDue, AnyDying, Add32;
    if segs == [] {
      NothingAny(e);
      SumWraps(t.xmit, 0);
    } else {
      var n := |segs| - 1;
      TxOneReport(e, TxAll(e, t, segs[..n]), segs[n]);
      TxReport(e, t, segs[..n]);
      AnyDueSnoc(e, segs, Timeout);
      AnyDueSnoc(e, segs, Early);
      SumWraps(t.xmit, Timeouts(e, segs[..n]));
    }
  }

  lemma NothingAny(e: Round)
    ensures !AnyDue(e, [], Timeout) && !AnyDue(e, [], Early) && !AnyDying(e, [])
  {
  }

  lemma SumWraps(a: u32, n: nat)
    ensures (a + 0) % TWO_32 == a
    ensures Add32((a + n) % TWO_32, 1) == (a + (n + 1)) % TWO_32
  {
  }

  /** A loop that ends early has passed the first `k` segments, the last of which was due and its send failed, and
      has left the others alone. */
  ghost predicate PassedUpTo(e: Round, segs: seq<Segment>, done: seq<Segment>, k: nat) {
    && 0 < k <= |segs| == |done| && !DueOf(e, segs[k - 1]).NotDue?
    && (forall i | 0 <= i < k :: done[i] == Restamped(e, segs[i])) && (forall i | k <= i < |segs| :: done[i] == segs[i])
  }

  lemma {:induction false} TxStops(e: Round, t: Tx, segs: seq<Segment>) returns (k: nat)
    requires t.done == [] && t.out.ok && !TxAll(e, t, segs).out.ok
    ensures PassedUpTo(e, segs, TxAll(e, t, segs).done, k)
  {
    hide Put, Restamped, DueOf, TxOne, TxStep, AllPassed, DuePackets, SameSegments, SomePassed;
    var n := |segs| - 1;
    var front := TxAll(e, t, segs[..n]);
    TxFacts(e, t, segs[..n]);
    if front.out.ok {
      k := |segs|;
      FailsHere(e, front, segs[n]);
      AllPassedAt(e, segs[..n], front.done);
    } else {
      k := TxStops(e, t, segs[..n]);
      FailedBefore(e, front, segs[n]);
    }
  }

  lemma AllPassedAt(e: Round, segs: seq<Segment>, done: seq<Segment>)
    requires AllPassed(e, segs, done)
    ensures |done| == |segs| && forall i | 0 <= i < |segs| :: done[i] == Restamped(e, segs[i])
  {
    hide Restamped;
  }

  lemma FailsHere(e: Round, t: Tx, s: Segment)
    requires t.out.ok && !TxOne(e, t, s).out.ok
    ensures TxOne(e, t, s).done == t.done + [Restamped(e, s)] && !DueOf(e, s).NotDue?
  {
    hide Put, Restamped;
  }

  lemma FailedBefore(e: Round, t: Tx, s: Segment)
    requires !t.out.ok
    ensures TxOne(e, t, s).done == t.done + [s]
  {
    hide Put, Restamped;
  }
}
