/** The two controllers: the congestion window and the round-trip estimator. */
module Control {
  import opened Arith

  // ---- congestion window ------------------------------------------------------

  const THRESH_INIT: u16 := 2
  const THRESH_MIN: u16 := 2

  datatype Congestion = Congestion(cwnd: u16, incr: u32, ssthresh: u16)

  /** Growth after new data was acknowledged. */
  function Grow(c: Congestion, rmtWnd: u16, mss: u32): Congestion
    requires mss > 0
  {
    if c.cwnd >= rmtWnd then c
    else
      var g := if c.cwnd < c.ssthresh then c.(cwnd := c.cwnd + 1, incr := Add32(c.incr, mss)) else Avoid(c, mss);
      if g.cwnd > rmtWnd then g.(cwnd := rmtWnd, incr := Wrap32(rmtWnd * mss)) else g
  }

  function Portion(a: int, b: int): int
    requires b != 0
  {
    a / b
  }

  /** Congestion avoidance: about one segment per window. */
  function Avoid(c: Congestion, mss: u32): Congestion
    requires mss > 0
  {
    var base := Max(c.incr, mss);
    Advance(c, base, Portion(Wrap32(mss * mss), base) + mss / 16, Wrap32(Wrap16(c.cwnd + 1) * mss))
  }

  /** `incr` moves on from `base` by `step`, and `cwnd` follows once `incr` has reached `next`. */
  function Advance(c: Congestion, base: int, step: int, next: int): Congestion {
    var incr := Add32(base, step);
    c.(incr := incr, cwnd := if next <= incr then Wrap16(c.cwnd + 1) else c.cwnd)
  }

  /** What a completed flush makes of the window: `fast` says a segment was resent early, `lost` that
      one timed out, `used` is the window the flush worked with. */
  function Settle(c: Congestion, fast: bool, lost: bool, inflight: u32, resent: u32, used: u16, mss: u32): Congestion {
    var c1 :=
      if fast then
        var t := Max(Wrap16(inflight) / 2, THRESH_MIN);
        var w := Wrap16(t + Wrap16(resent));
        Congestion(w, Wrap32(w * mss), t)
      else c;
    var c2 := if lost then Congestion(1, mss, Max(used / 2, THRESH_MIN)) else c1;
    if c2.cwnd < 1 then c2.(cwnd := 1, incr := mss) else c2
  }

  /** `cwnd` is `incr` in whole segments. */
  predicate Coherent(c: Congestion, mss: u32) {
    c.cwnd * mss <= c.incr < (c.cwnd + 1) * mss && c.ssthresh >= THRESH_MIN
  }

  lemma CoherentIsQuotient(c: Congestion, mss: u32)
    requires mss > 0 && Coherent(c, mss)
    ensures c.cwnd == c.incr / mss
  {
    QuotientIs(c.incr, mss, c.cwnd);
  }

  lemma QuotientIs(n: nat, d: nat, q: nat)
    requires d > 0 && q * d <= n < (q + 1) * d
    ensures n / d == q
  {
    var r := n - q * d;
    assert n == q * d + r;
    assert (q + 1) * d == q * d + d;
    var p := n / d;
    if p < q {
      assert (p + 1) * d == p * d + d;
      ProductMonotone(p + 1, q, d);
    } else if p > q {
      ProductMonotone(q + 1, p, d);
    }
  }

  lemma ProductMonotone(a: nat, b: nat, m: nat)
    requires a <= b
    ensures a * m <= b * m
  {
  }

  lemma ProductBound(a: nat, b: nat, m: nat, n: nat)
    requires a <= b && m <= n
    ensures a * m <= b * n
  {
    ProductMonotone(a, b, m);
    ProductMonotone(m, n, b);
  }

  /** The increment of congestion avoidance is less than one segment. */
  lemma AvoidIncrement(incr: nat, mss: nat)
    requires 0 < mss && 2 * mss <= incr
    ensures mss * mss / incr <= mss / 2
    ensures mss * mss / incr + mss / 16 < mss
  {
    var q := mss * mss / incr;
    assert q * incr <= mss * mss;
    if q > mss / 2 {
      assert 2 * q > mss;
      ProductMonotone(2 * mss, incr, q);
      assert q * (2 * mss) == (2 * q) * mss;
      assert (mss + 1) * mss == mss * mss + mss;
      ProductMonotone(mss + 1, 2 * q, mss);
    }
  }

  lemma WindowProducts(cwnd: nat, mss: nat)
    requires cwnd + 1 < TWO_16 && mss < TWO_16
    ensures (cwnd + 1) * mss == cwnd * mss + mss && (cwnd + 2) * mss == cwnd * mss + mss + mss
    ensures cwnd * mss + mss + mss + mss / 16 < TWO_32 && mss * mss < TWO_32
  {
    var m := TWO_16 - 1;
    ProductBound(cwnd + 1, m, mss, m);
    ProductBound(mss, m, mss, m);
    assert (cwnd + 1) * mss == cwnd * mss + mss && (cwnd + 2) * mss == (cwnd + 1) * mss + mss;
  }

  lemma AvoidStep(c: Congestion, mss: u32)
    requires 0 < mss && Coherent(c, mss) && c.cwnd >= 2
    ensures 2 * mss <= c.incr && 0 <= Portion(mss * mss, c.incr) + mss / 16 < mss
  {
    ProductMonotone(2, c.cwnd, mss);
    AvoidIncrement(c.incr, mss);
  }

  /** Every product and sum of the growth step fits its type. */
  lemma GrowFits(c: Congestion, rmtWnd: u16, mss: u32)
    requires 0 < mss < TWO_16 && Coherent(c, mss) && c.cwnd < rmtWnd
    ensures c.cwnd + 1 < TWO_16 && c.incr + mss < TWO_32 && mss * mss < TWO_32 && (c.cwnd + 1) * mss < TWO_32
    ensures c.cwnd >= c.ssthresh ==> mss <= c.incr && c.incr + Portion(mss * mss, c.incr) + mss / 16 < TWO_32
  {
    hide Portion;
    WindowProducts(c.cwnd, mss);
    if c.cwnd >= c.ssthresh {
      AvoidStep(c, mss);
    }
  }

  /** Growth keeps the window coherent, is by at most one segment, and never goes past the remote window. */
  lemma GrowKeeps(c: Congestion, rmtWnd: u16, mss: u32)
    requires 0 < mss < TWO_16 && Coherent(c, mss)
    ensures var g := Grow(c, rmtWnd, mss);
            Coherent(g, mss) && c.cwnd <= g.cwnd <= c.cwnd + 1 && (g != c ==> g.cwnd <= rmtWnd)
  {
    hide Avoid, Portion;
    if c.cwnd < rmtWnd {
      WindowProducts(c.cwnd, mss);
      if c.cwnd >= c.ssthresh {
        AvoidStep(c, mss);
        AvoidKeeps(c, mss, mss * mss, c.cwnd * mss);
      } else {
        SumExact(c.incr, mss);
        hide Add32;
      }
    }
  }

  lemma AdvanceKeeps(c: Congestion, step: nat, mss: u32, here: nat, next: nat)
    requires here == c.cwnd * mss && next == (c.cwnd + 1) * mss == here + mss && step < mss && c.ssthresh >= THRESH_MIN
    requires here <= c.incr < next && c.cwnd + 1 < TWO_16 && next + mss < TWO_32 && (c.cwnd + 2) * mss == next + mss
    ensures var a := Advance(c, c.incr, step, next);
            Coherent(a, mss) && c.cwnd <= a.cwnd <= c.cwnd + 1 && a.incr == c.incr + step
  {
    SumExact(c.incr, step);
    hide Add32;
  }

  lemma AvoidKeeps(c: Congestion, mss: u32, square: nat, here: nat)
    requires 0 < mss && square == mss * mss < TWO_32 && here == c.cwnd * mss && (c.cwnd + 1) * mss == here + mss
    requires Coherent(c, mss) && mss <= c.incr && c.cwnd + 1 < TWO_16
    requires here + mss + mss < TWO_32 && (c.cwnd + 2) * mss == here + mss + mss
    requires 0 <= Portion(square, c.incr) + mss / 16 < mss
    ensures Coherent(Avoid(c, mss), mss) && c.cwnd <= Avoid(c, mss).cwnd <= c.cwnd + 1
  {
    hide Avoid, Advance, Portion;
    AvoidIsAdvance(c, mss, square, here + mss);
    AdvanceKeeps(c, Portion(square, c.incr) + mss / 16, mss, here, here + mss);
  }

  lemma AvoidIsAdvance(c: Congestion, mss: u32, square: nat, next: nat)
    requires 0 < mss <= c.incr && square == mss * mss < TWO_32
    requires c.cwnd + 1 < TWO_16 && next == (c.cwnd + 1) * mss < TWO_32
    ensures Avoid(c, mss) == Advance(c, c.incr, Portion(square, c.incr) + mss / 16, next)
  {
    hide Wrap32, Advance, Portion;
    WrapExact(square);
    WrapExact(next);
  }

  lemma WrapExact(a: int)
    requires 0 <= a < TWO_32
    ensures Wrap32(a) == a
  {
  }

  // ---- how fast the window grows --------------------------------------------------

  /** The growth step below and from the threshold on: one segment; or `mss*mss/incr + mss/16`, with one more
      segment exactly when `incr` has reached it. */
  lemma GrowExactly(c: Congestion, rmtWnd: u16, mss: u32)
    requires 0 < mss < TWO_16 && Coherent(c, mss) && c.cwnd < rmtWnd
    ensures var g := Grow(c, rmtWnd, mss); var incr := c.incr + Portion(mss * mss, Max(c.incr, 1)) + mss / 16;
            && g.ssthresh == c.ssthresh
            && if c.cwnd < c.ssthresh then g.cwnd == c.cwnd + 1 && g.incr == c.incr + mss
               else g.cwnd == (if (c.cwnd + 1) * mss <= incr then c.cwnd + 1 else c.cwnd) && g.incr == incr
  {
    hide Avoid, Portion;
    WindowProducts(c.cwnd, mss);
    if c.cwnd >= c.ssthresh {
      AvoidStep(c, mss);
      AvoidExactly(c, mss, mss * mss, (c.cwnd + 1) * mss);
    } else {
      SumExact(c.incr, mss);
    }
  }

  lemma AvoidExactly(c: Congestion, mss: u32, square: nat, next: nat)
    requires 0 < mss <= c.incr && square == mss * mss < TWO_32
    requires c.cwnd + 1 < TWO_16 && next == (c.cwnd + 1) * mss < TWO_32
    requires 0 <= Portion(square, c.incr) + mss / 16 < mss && c.incr < next && next + mss < TWO_32
    ensures var incr := c.incr + Portion(square, c.incr) + mss / 16;
            Avoid(c, mss) == Congestion(if next <= incr then c.cwnd + 1 else c.cwnd, incr, c.ssthresh)
  {
    hide Avoid, Portion;
    AvoidIsAdvance(c, mss, square, next);
    SumExact(c.incr, Portion(square, c.incr) + mss / 16);
  }

  function GrowTimes(c: Congestion, rmtWnd: u16, mss: u32, n: nat): Congestion
    requires mss > 0
  {
    if n == 0 then c else Grow(GrowTimes(c, rmtWnd, mss, n - 1), rmtWnd, mss)
  }

  /** A growth step that does not raise `cwnd` adds at least a sixteenth of a segment. */
  lemma GrowAdds(c: Congestion, rmtWnd: u16, mss: u32)
    requires 16 <= mss < TWO_16 && Coherent(c, mss) && c.cwnd < rmtWnd
    ensures var g := Grow(c, rmtWnd, mss); g.cwnd > c.cwnd || (g.cwnd == c.cwnd && g.incr >= c.incr + mss / 16)
  {
    hide Grow, Portion, Coherent;
    GrowExactly(c, rmtWnd, mss);
    PortionIsNat(mss * mss, Max(c.incr, 1));
    CoherentIncr(c, mss);
  }

  lemma CoherentIncr(c: Congestion, mss: u32)
    requires Coherent(c, mss)
    ensures c.cwnd * mss <= c.incr < (c.cwnd + 1) * mss
  {
  }

  lemma PortionIsNat(a: nat, b: nat)
    requires b > 0
    ensures Portion(a, b) >= 0
  {
  }

  lemma {:induction false} GrowTimesAdds(c: Congestion, rmtWnd: u16, mss: u32, n: nat)
    requires 16 <= mss < TWO_16 && Coherent(c, mss) && c.cwnd < rmtWnd
    ensures var g := GrowTimes(c, rmtWnd, mss, n);
            Coherent(g, mss) && (g.cwnd > c.cwnd || (g.cwnd == c.cwnd && g.incr >= c.incr + n * (mss / 16)))
  {
    hide Grow, Coherent;
    if n > 0 {
      GrowTimesAdds(c, rmtWnd, mss, n - 1);
      var g := GrowTimes(c, rmtWnd, mss, n - 1);
      GrowKeeps(g, rmtWnd, mss);
      assert n * (mss / 16) == (n - 1) * (mss / 16) + mss / 16;
      if g.cwnd == c.cwnd {
        GrowAdds(g, rmtWnd, mss);
      }
    }
  }

  lemma Sixteenths(mss: nat)
    requires mss >= 16
    ensures 31 * (mss / 16) >= mss
  {
  }

  /** The window opens: while the remote one is larger, at most 31 growth steps raise `cwnd`. */
  lemma GrowthOpens(c: Congestion, rmtWnd: u16, mss: u32)
    requires 16 <= mss < TWO_16 && Coherent(c, mss) && c.cwnd < rmtWnd
    ensures GrowTimes(c, rmtWnd, mss, 31).cwnd > c.cwnd
  {
    hide GrowTimes, Coherent;
    GrowTimesAdds(c, rmtWnd, mss, 31);
    Sixteenths(mss);
    CoherentIncr(c, mss);
    CoherentIncr(GrowTimes(c, rmtWnd, mss, 31), mss);
    assert (c.cwnd + 1) * mss == c.cwnd * mss + mss;
  }

  /** A completed flush leaves a coherent window of at least one segment. */
  lemma SettleKeeps(c: Congestion, fast: bool, lost: bool, inflight: u32, resent: u32, used: u16, mss: u32)
    requires 0 < mss < TWO_16 && Coherent(c, mss)
    ensures var s := Settle(c, fast, lost, inflight, resent, used, mss); Coherent(s, mss) && s.cwnd >= 1
    ensures inflight < TWO_16 && resent < 0x8000 ==> Max(inflight / 2, THRESH_MIN) + resent < TWO_16
  {
    hide Wrap32, Wrap16;
    var t := Max(Wrap16(inflight) / 2, THRESH_MIN);
    var w := Wrap16(t + Wrap16(resent));
    ProductBound(w, TWO_16 - 1, mss, TWO_16 - 1);
    WrapExact(w * mss);
    NextProduct(w, mss);
  }

  lemma NextProduct(w: nat, mss: nat)
    ensures (w + 1) * mss == w * mss + mss
  {
  }

  // ---- round-trip estimator -----------------------------------------------------

  const RTO_NDL: u32 := 30
  const RTO_MIN: u32 := 100
  const RTO_DEF: u32 := 200
  const RTO_MAX: u32 := 60000

  datatype Rtt = Rtt(srtt: u32, rttval: u32, rto: u32)

  function AbsDiff(a: u32, b: u32): u32 { if a < b then b - a else a - b }

  function UpdateAck(r: Rtt, rtt: u32, interval: u32, minRto: u32): Rtt {
    var rttval := if r.srtt == 0 then rtt / 2 else Wrap32(3 * r.rttval + AbsDiff(rtt, r.srtt)) / 4;
    var srtt := if r.srtt == 0 then rtt else Max(Wrap32(7 * r.srtt + rtt) / 8, 1);
    Rtt(srtt, rttval, Bound(minRto, Add32(srtt, Max(interval, Wrap32(4 * rttval))), RTO_MAX))
  }

  function Sample(r: Rtt, samples: seq<u32>, interval: u32, minRto: u32): Rtt {
    if samples == [] then r
    else UpdateAck(Sample(r, samples[..|samples| - 1], interval, minRto), samples[|samples| - 1], interval, minRto)
  }

  const SAMPLE_LIMIT := 0x2000_0000

  /** The estimator has seen only samples between `lo` and `hi`. */
  predicate Tracks(r: Rtt, lo: u32, hi: u32) { lo <= r.srtt <= hi && r.rttval <= hi }

  /** One sample: nothing overflows, the estimates stay within the samples' range, and the timeout is
      the clamped sum. */
  lemma UpdateAckKeeps(r: Rtt, rtt: u32, interval: u32, minRto: u32, lo: u32, hi: u32)
    requires lo <= rtt <= hi < SAMPLE_LIMIT && interval < SAMPLE_LIMIT && (r.srtt == 0 || Tracks(r, lo, hi))
    ensures var u := UpdateAck(r, rtt, interval, minRto);
            && Tracks(u, lo, hi) && Min(minRto, RTO_MAX) <= u.rto <= RTO_MAX
            && u.rto == Min(Max(minRto, u.srtt + Max(interval, 4 * u.rttval)), 60000)
            && (r.srtt == 0 ==> u.srtt == rtt && u.rttval == rtt / 2)
            && (r.srtt != 0 ==> u.rttval == (3 * r.rttval + AbsDiff(rtt, r.srtt)) / 4)
            && (r.srtt != 0 ==> u.srtt == Max((7 * r.srtt + rtt) / 8, 1))
  {
    hide Wrap32;
    var delta := AbsDiff(rtt, r.srtt);
    if r.srtt != 0 {
      WrapExact(3 * r.rttval + delta);
      WrapExact(7 * r.srtt + rtt);
    }
    var rttval := if r.srtt == 0 then rtt / 2 else (3 * r.rttval + delta) / 4;
    var srtt := if r.srtt == 0 then rtt else Max((7 * r.srtt + rtt) / 8, 1);
    assert lo <= srtt <= hi && rttval <= hi;
    WrapExact(4 * rttval);
    SumExact(srtt, Max(interval, 4 * rttval));
  }

  lemma SumExact(a: nat, b: nat)
    requires a + b < TWO_32
    ensures Add32(a, b) == a + b
  {
  }

  /** Any history of samples between `lo` and `hi`. */
  lemma {:induction false} SamplesKeep(r: Rtt, samples: seq<u32>, interval: u32, minRto: u32, lo: u32, hi: u32)
    requires r.srtt == 0 && samples != [] && hi < SAMPLE_LIMIT && interval < SAMPLE_LIMIT
    requires forall i | 0 <= i < |samples| :: lo <= samples[i] <= hi
    ensures var u := Sample(r, samples, interval, minRto);
            Tracks(u, lo, hi) && Min(minRto, RTO_MAX) <= u.rto <= RTO_MAX &&
            u.rto == Min(Max(minRto, u.srtt + Max(interval, 4 * u.rttval)), RTO_MAX)
  {
    var n := |samples| - 1;
    if n > 0 {
      SamplesKeep(r, samples[..n], interval, minRto, lo, hi);
    }
    UpdateAckKeeps(Sample(r, samples[..n], interval, minRto), samples[n], interval, minRto, lo, hi);
  }
}
