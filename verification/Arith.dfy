/** The fixed-width arithmetic of the protocol engine. Sums and differences wrap, as they do in a
    release build of the original; the lemmas say when the wrap is invisible. */
module Arith {
  const TWO_16 := 0x1_0000
  const TWO_31 := 0x8000_0000
  const TWO_32 := 0x1_0000_0000

  type u8 = x: int | 0 <= x < 0x100
  type u16 = x: int | 0 <= x < TWO_16
  type u32 = x: int | 0 <= x < TWO_32

  function Min(a: int, b: int): int { if a <= b then a else b }

  function Max(a: int, b: int): int { if a <= b then b else a }

  function Bound(lower: u32, v: u32, upper: u32): u32 { Min(Max(lower, v), upper) }

  /** `u32` addition. */
  function Add32(a: int, b: int): u32 { (a + b) % TWO_32 }

  /** Wraps any integer to `u32`, and to `u16`. */
  function Wrap32(a: int): u32 { a % TWO_32 }

  function Wrap16(a: int): u16 { a % TWO_16 }

  /** The signed 32-bit difference of two counters. */
  function Timediff(later: u32, earlier: u32): (d: int)
    ensures -TWO_31 <= d < TWO_31
  {
    var d := (later - earlier) % TWO_32;
    if d < TWO_31 then d else d - TWO_32
  }

  lemma TimediffExact(a: u32, b: u32)
    requires -TWO_31 <= a - b < TWO_31
    ensures Timediff(a, b) == a - b
  {
  }

  /** Counters that run on without bound, seen modulo 2^32, are compared by `Timediff` as the true
      counters are, as long as they are less than 2^31 apart. */
  lemma TimediffOfCounters(a: nat, b: nat)
    requires -TWO_31 <= a - b < TWO_31
    ensures Timediff(a % TWO_32, b % TWO_32) == a - b
  {
    var q := a / TWO_32 - b / TWO_32;
    assert a % TWO_32 - b % TWO_32 == a - b - q * TWO_32;
    assert -1 <= q <= 1;
  }

  /** The two comparisons that guard the receive window accept exactly the `w` numbers that follow
      `nxt` on the circle, whatever `sn` a datagram carries. */
  lemma WindowTest(sn: u32, nxt: u32, w: u16)
    ensures (Timediff(sn, Add32(nxt, w)) < 0 && Timediff(sn, nxt) >= 0) <==> (sn - nxt) % TWO_32 < w
  {
  }
}
