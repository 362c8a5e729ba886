/** The receiver does not depend on arrival order: whatever way the segments of a window come in, it
    ends in one canonical state. */
module Confluence {
  import opened Arith
  import opened Wire
  import opened Chunks
  import opened Receiving

  function Feed(r: Receiver, ps: seq<Packet>, wnd: u16): Receiver {
    if ps == [] then r else ParseData(Feed(r, ps[..|ps| - 1], wnd), ps[|ps| - 1], wnd)
  }

  /** The length of the run of numbers from `n` on that are in `s`, as far as there is room. */
  function RunLength(s: set<u32>, n: nat, room: nat): (k: nat)
    ensures k <= room
    decreases room
  {
    if room == 0 || n !in s then 0 else 1 + RunLength(s, n + 1, room - 1)
  }

  datatype Numbered = Numbered(sn: int, chunk: Chunk)

  datatype View = View(nxt: int, queue: seq<Numbered>, buf: seq<Numbered>)

  function NumberedOf(p: Packet): Numbered { Numbered(p.sn, ChunkOf(p)) }

  function Contents(ps: seq<Packet>): (c: seq<Numbered>)
    ensures |c| == |ps|
  {
    seq(|ps|, i requires 0 <= i < |ps| => NumberedOf(ps[i]))
  }

  /** What a receiver holds, up to the header fields that differ between copies of a segment. */
  function ViewOf(r: Receiver): View { View(r.nxt, Contents(r.queue), Contents(r.buf)) }

  /** Every packet carries what `content` says its number stands for. */
  ghost predicate Agrees(ps: seq<Packet>, content: map<u32, Chunk>) {
    forall i | 0 <= i < |ps| :: ps[i].sn in content && content[ps[i].sn] == ChunkOf(ps[i])
  }

  /** The numbers of `s` in `[lo, hi)`, in order, with their content. */
  function Listing(s: set<u32>, content: map<u32, Chunk>, lo: nat, hi: nat): seq<Numbered>
    requires s <= content.Keys
    decreases hi - lo
  {
    if lo >= hi then []
    else (if lo in s then [Numbered(lo, content[lo])] else []) + Listing(s, content, lo + 1, hi)
  }

  /** The receiver that holds the numbers `s`, described without reference to how they came: the
      longest run that fits is queued, the rest is buffered in order. */
  function Canonical(r: Receiver, s: set<u32>, content: map<u32, Chunk>, wnd: u16): View
    requires s <= content.Keys
  {
    var k := RunLength(s, r.nxt, if |r.queue| <= wnd then wnd - |r.queue| else 0);
    View(r.nxt + k, Contents(r.queue) + Listing(s, content, r.nxt, r.nxt + k),
      Listing(s, content, r.nxt + k, r.nxt + wnd))
  }

  function SnSet(ps: seq<Packet>): set<u32> { set i | 0 <= i < |ps| :: ps[i].sn }

  /** `r` has grown out of `r0`: the queue was extended by the numbered run `[r0.nxt, r.nxt)`. */
  ghost predicate Extended(r0: Receiver, r: Receiver, run: seq<Packet>) {
    && r.nxt == r0.nxt + |run| && r.queue == r0.queue + run && forall i | 0 <= i < |run| :: run[i].sn == r0.nxt + i
  }

  /** What `r` holds beyond what `r0` had delivered. */
  predicate Held(r0: Receiver, r: Receiver, n: u32) { r0.nxt <= n < r.nxt || Holds(r.buf, n) }

  lemma ExtendedStep(r0: Receiver, r: Receiver, r': Receiver, run: seq<Packet>, m: seq<Packet>, k: nat)
    requires Extended(r0, r, run) && Accepted(r, r', m, k)
    ensures Extended(r0, r', run + m[..k])
  {
    assert r'.queue == r0.queue + (run + m[..k]);
  }

  lemma AcceptedParts(r: Receiver, r': Receiver, m: seq<Packet>, k: nat)
    requires Accepted(r, r', m, k)
    ensures k <= |m| && r'.buf == m[k..]
  {
  }

  lemma HeldStep(r0: Receiver, r: Receiver, p: Packet, wnd: u16, n: u32)
    requires r0.nxt <= r.nxt && RcvInv(r, wnd) && r.nxt + |r.buf| < SN_LIMIT
    requires r0.nxt <= p.sn < r.nxt + wnd
    ensures Held(r0, ParseData(r, p, wnd), n) <==> Held(r0, r, n) || n == p.sn
  {
    hide Insert, ParseData, Holds;
    var i, k := ParseDataFacts(r, p, wnd);
    if r.nxt <= p.sn {
      var _ := InsertFacts(r.buf, p, n);
      HasAfterDrain(Insert(r.buf, p), r.nxt, k, n);
    }
  }

  lemma AgreesStep(r: Receiver, p: Packet, m: seq<Packet>, i: nat, k: nat, content: map<u32, Chunk>)
    requires Agrees(r.buf, content) && Agrees([p], content) && k <= |m| && (m == r.buf || InsertedAt(m, r.buf, p, i))
    ensures Agrees(m[..k], content) && Agrees(m[k..], content)
  {
    assert [p][0] == p;
    assert Agrees(m, content);
  }

  /** The state of the receiver after any number of arrivals, in terms of the set `s` of arrived numbers. */
  ghost predicate Grown(r0: Receiver, r: Receiver, run: seq<Packet>, s: set<u32>, content: map<u32, Chunk>, wnd: u16) {
    && RcvInv(r, wnd) && Extended(r0, r, run) && Agrees(run, content) && Agrees(r.buf, content)
    && forall n: u32 :: n in s <==> Held(r0, r, n)
  }

  lemma GrownStep(r0: Receiver, r: Receiver, run: seq<Packet>, s: set<u32>, p: Packet, content: map<u32, Chunk>,
      wnd: u16)
      returns (run': seq<Packet>)
    requires Grown(r0, r, run, s, content, wnd) && r.nxt + |r.buf| < SN_LIMIT
    requires r0.nxt <= p.sn < r0.nxt + wnd && Agrees([p], content)
    ensures var r' := ParseData(r, p, wnd);
            Grown(r0, r', run', s + {p.sn}, content, wnd)
  {
    hide Insert, ParseData, Holds, Accepted, InsertedAt, Agrees, Held;
    var i, k := ParseDataFacts(r, p, wnd);
    var m := Insert(r.buf, p);
    var r' := ParseData(r, p, wnd);
    run' := run;
    if r.nxt <= p.sn {
      AcceptedParts(r, r', m, k);
      ExtendedStep(r0, r, r', run, m, k);
      AgreesStep(r, p, m, i, k, content);
      run' := run + m[..k];
      AgreesAppend(run, m[..k], content);
    }
    forall n: u32 ensures n in s + {p.sn} <==> Held(r0, r', n) {
      HeldStep(r0, r, p, wnd, n);
    }
  }

  lemma AgreesAppend(a: seq<Packet>, b: seq<Packet>, content: map<u32, Chunk>)
    ensures Agrees(a + b, content) <==> Agrees(a, content) && Agrees(b, content)
  {
    forall i | 0 <= i < |b| && Agrees(a + b, content) ensures b[i].sn in content && content[b[i].sn] == ChunkOf(b[i]) {
      assert (a + b)[|a| + i] == b[i];
    }
    forall i | 0 <= i < |a| && Agrees(a + b, content) ensures a[i].sn in content && content[a[i].sn] == ChunkOf(a[i]) {
      assert (a + b)[i] == a[i];
    }
  }

  /** However much has arrived, nothing is held beyond the window of the beginning. */
  lemma GrownBound(r0: Receiver, r: Receiver, run: seq<Packet>, s: set<u32>, content: map<u32, Chunk>, wnd: u16)
    requires Grown(r0, r, run, s, content, wnd) && forall n | n in s :: n < r0.nxt + wnd
    ensures r.nxt + |r.buf| <= r0.nxt + wnd
  {
    hide Agrees;
    forall i | 0 <= i < |r.buf| ensures r.nxt <= r.buf[i].sn < r0.nxt + wnd {
      assert Held(r0, r, r.buf[i].sn);
    }
    SortedIsShort(r.buf, r.nxt, r0.nxt + wnd);
  }

  lemma {:induction false} FeedGrows(r: Receiver, ps: seq<Packet>, content: map<u32, Chunk>, wnd: u16)
       returns (run: seq<Packet>)
    requires RcvInv(r, wnd) && r.nxt + wnd < SN_LIMIT
    requires Between(ps, r.nxt, r.nxt + wnd) && Agrees(r.buf, content) && Agrees(ps, content)
    ensures Grown(r, Feed(r, ps, wnd), run, SnSet(r.buf) + SnSet(ps), content, wnd)
  {
    hide ParseData;
    if ps == [] {
      run := [];
      assert r.queue + run == r.queue;
    } else {
      var front, p := ps[..|ps| - 1], ps[|ps| - 1];
      assert ps == front + [p];
      AgreesAppend(front, [p], content);
      run := FeedGrows(r, front, content, wnd);
      GrownBound(r, Feed(r, front, wnd), run, SnSet(r.buf) + SnSet(front), content, wnd);
      SnSetSnoc(front, p);
      assert SnSet(r.buf) + SnSet(ps) == SnSet(r.buf) + SnSet(front) + {p.sn};
      run := GrownStep(r, Feed(r, front, wnd), run, SnSet(r.buf) + SnSet(front), p, content, wnd);
    }
  }

  lemma SnSetSnoc(front: seq<Packet>, p: Packet)
    ensures SnSet(front + [p]) == SnSet(front) + {p.sn}
  {
    forall n | n in SnSet(front) + {p.sn} ensures n in SnSet(front + [p]) {
      if n == p.sn {
        assert (front + [p])[|front|].sn == n;
      } else {
        var i :| 0 <= i < |front| && front[i].sn == n;
        assert (front + [p])[i].sn == n;
      }
    }
  }

  lemma {:induction false} RunLengthIs(s: set<u32>, n: nat, room: nat, k: nat)
    requires k <= room && (forall i: u32 | n <= i < n + k :: i in s) && n + room < TWO_31
    requires k == room || n + k !in s
    ensures RunLength(s, n, room) == k
    decreases k
  {
    if k > 0 {
      RunLengthIs(s, n + 1, room - 1, k - 1);
    }
  }

  lemma ContentsCons(ps: seq<Packet>)
    requires ps != []
    ensures Contents(ps) == [NumberedOf(ps[0])] + Contents(ps[1..])
  {
  }

  lemma ContentsAppend(a: seq<Packet>, b: seq<Packet>)
    ensures Contents(a + b) == Contents(a) + Contents(b)
  {
  }

  /** An ordered list of packets is the listing of its numbers. */
  lemma {:induction false} ListingOfSorted(ps: seq<Packet>, s: set<u32>, content: map<u32, Chunk>, lo: nat, hi: nat)
    requires Sorted(ps) && Between(ps, lo, hi) && Agrees(ps, content) && s <= content.Keys && hi <= TWO_32
    requires forall n: u32 | lo <= n < hi :: n in s <==> Holds(ps, n)
    ensures Contents(ps) == Listing(s, content, lo, hi)
    decreases hi - lo
  {
    if lo < hi {
      if ps != [] && ps[0].sn == lo {
        var rest := ps[1..];
        assert Holds(ps, lo);
        forall n: u32 | lo + 1 <= n < hi ensures n in s <==> Holds(rest, n) {
          HasAfterDrain(ps, lo, 1, n);
        }
        ContentsCons(ps);
        ListingOfSorted(rest, s, content, lo + 1, hi);
      } else {
        assert !Holds(ps, lo);
        ListingOfSorted(ps, s, content, lo + 1, hi);
      }
    } else {
      if ps != [] {
        assert false;
      }
    }
  }

  lemma RunIsMaximal(r: Receiver, r': Receiver, run: seq<Packet>, s: set<u32>, content: map<u32, Chunk>, wnd: u16)
    requires |r.queue| <= wnd && r.nxt + wnd < TWO_31 && Grown(r, r', run, s, content, wnd)
    ensures |run| == RunLength(s, r.nxt, wnd - |r.queue|)
  {
    forall i | 0 <= i < |r'.buf| && |r'.queue| < wnd ensures r'.buf[i].sn != r'.nxt {
      assert i > 0 ==> r'.buf[0].sn < r'.buf[i].sn;
    }
    assert Held(r, r', r'.nxt) <==> Holds(r'.buf, r'.nxt);
    RunLengthIs(s, r.nxt, wnd - |r.queue|, |run|);
  }

  lemma RunIsListing(r: Receiver, r': Receiver, run: seq<Packet>, s: set<u32>, content: map<u32, Chunk>, wnd: u16)
    requires s <= content.Keys && Grown(r, r', run, s, content, wnd) && r'.nxt + wnd < TWO_31
    ensures Contents(run) == Listing(s, content, r.nxt, r'.nxt)
  {
    forall n: u32 | r.nxt <= n < r'.nxt ensures n in s && Holds(run, n) {
      assert run[n - r.nxt].sn == n;
    }
    ListingOfSorted(run, s, content, r.nxt, r'.nxt);
  }

  lemma BufferIsListing(r: Receiver, r': Receiver, run: seq<Packet>, s: set<u32>, content: map<u32, Chunk>, wnd: u16)
    requires s <= content.Keys && Grown(r, r', run, s, content, wnd) && r'.nxt + wnd < TWO_31
    requires forall n | n in s :: n < r.nxt + wnd
    ensures Contents(r'.buf) == Listing(s, content, r'.nxt, r.nxt + wnd)
  {
    forall i | 0 <= i < |r'.buf| ensures r'.buf[i].sn < r.nxt + wnd {
      assert Held(r, r', r'.buf[i].sn);
    }
    ListingOfSorted(r'.buf, s, content, r'.nxt, r.nxt + wnd);
  }

  /** Feeding any segments of the window, in any order and with any repetition, ends in the canonical
      receiver for the set of numbers that have arrived. */
  lemma FeedIsCanonical(r: Receiver, ps: seq<Packet>, content: map<u32, Chunk>, wnd: u16)
    requires RcvInv(r, wnd) && r.nxt + wnd < SN_LIMIT
    requires Between(ps, r.nxt, r.nxt + wnd) && Agrees(r.buf, content) && Agrees(ps, content)
    ensures var s := SnSet(r.buf) + SnSet(ps);
            s <= content.Keys && ViewOf(Feed(r, ps, wnd)) == Canonical(r, s, content, wnd)
  {
    hide Feed, Listing, RunLength;
    var run := FeedGrows(r, ps, content, wnd);
    var r', s := Feed(r, ps, wnd), SnSet(r.buf) + SnSet(ps);
    RunIsMaximal(r, r', run, s, content, wnd);
    RunIsListing(r, r', run, s, content, wnd);
    BufferIsListing(r, r', run, s, content, wnd);
    ContentsAppend(r.queue, run);
  }

  /** Confluence: two arrival orders of the same segments leave the same receiver, up to the header
      fields that differ between copies. */
  lemma ArrivalOrderDoesNotMatter(r: Receiver, ps: seq<Packet>, qs: seq<Packet>, content: map<u32, Chunk>, wnd: u16)
    requires RcvInv(r, wnd) && r.nxt + wnd < SN_LIMIT
    requires Between(ps, r.nxt, r.nxt + wnd) && Between(qs, r.nxt, r.nxt + wnd)
    requires Agrees(r.buf, content) && Agrees(ps, content) && Agrees(qs, content)
    requires SnSet(ps) == SnSet(qs)
    ensures ViewOf(Feed(r, ps, wnd)) == ViewOf(Feed(r, qs, wnd))
  {
    hide Feed;
    FeedIsCanonical(r, ps, content, wnd);
    FeedIsCanonical(r, qs, content, wnd);
  }
}
