/** Segments as bytes: the 24-byte little-endian header, the parsing loop of `input`, and the XOR
    layer under it. */
module Wire {
  import opened Arith
  import opened Errors

  type byte = u8
  type Key = seq<byte>

  const OVERHEAD := 24

  const CMD_PUSH: u8 := 81
  const CMD_ACK: u8 := 82
  const CMD_WASK: u8 := 83
  const CMD_WINS: u8 := 84

  /** What one segment says on the wire. */
  datatype Packet = Packet(conv: u32, cmd: u8, frg: u8, wnd: u16, ts: u32, sn: u32, una: u32, data: seq<byte>)

  type Datagram = seq<Packet>

  predicate KnownCmd(cmd: u8) { cmd == CMD_PUSH || cmd == CMD_ACK || cmd == CMD_WASK || cmd == CMD_WINS }

  function EncodedLen(p: Packet): nat { OVERHEAD + |p.data| }

  // ---- fixed-width integers -------------------------------------------------

  function Le8(x: u8): (b: seq<byte>)
    ensures |b| == 1
  {
    [x]
  }

  function Le16(x: u16): (b: seq<byte>)
    ensures |b| == 2
  {
    [x % 0x100, x / 0x100]
  }

  function Le32(x: u32): (b: seq<byte>)
    ensures |b| == 4
  {
    Le16(x % TWO_16) + Le16(x / TWO_16)
  }

  function Get16(b: seq<byte>, i: nat): u16
    requires i + 2 <= |b|
  {
    var hi: int := b[i + 1];
    b[i] + 0x100 * hi
  }

  function Get32(b: seq<byte>, i: nat): u32
    requires i + 4 <= |b|
  {
    Get16(b, i) + TWO_16 * Get16(b, i + 2)
  }

  lemma GetPut16(b: seq<byte>, i: nat, x: u16)
    requires i + 2 <= |b|
    ensures b[i..i + 2] == Le16(x) <==> Get16(b, i) == x
  {
    var v := Get16(b, i);
    assert Le16(v) == [b[i], b[i + 1]] == b[i..i + 2];
    assert x == x % 0x100 + 0x100 * (x / 0x100);
  }

  lemma GetPut32(b: seq<byte>, i: nat, x: u32)
    requires i + 4 <= |b|
    ensures b[i..i + 4] == Le32(x) <==> Get32(b, i) == x
  {
    GetPut16(b, i, x % TWO_16);
    GetPut16(b, i + 2, x / TWO_16);
    assert b[i..i + 4] == b[i..i + 2] + b[i + 2..i + 4];
    if b[i..i + 4] == Le32(x) {
      assert b[i..i + 2] == b[i..i + 4][..2] == Le16(x % TWO_16);
      assert b[i + 2..i + 4] == b[i..i + 4][2..] == Le16(x / TWO_16);
    }
  }

  // ---- one segment ----------------------------------------------------------

  /** The first and the second half of the header. */
  function FirstHalf(p: Packet): (b: seq<byte>)
    ensures |b| == 8
  {
    Le32(p.conv) + Le8(p.cmd) + Le8(p.frg) + Le16(p.wnd)
  }

  function SecondHalf(p: Packet): (b: seq<byte>)
    ensures |b| == 16
  {
    Le32(p.ts) + Le32(p.sn) + Le32(p.una) + Le32(|p.data| % TWO_32)
  }

  function Encode(p: Packet): (b: seq<byte>)
    ensures |b| == EncodedLen(p)
  {
    FirstHalf(p) + SecondHalf(p) + p.data
  }

  function EncodeAll(ps: Datagram): seq<byte> {
    if ps == [] then [] else Encode(ps[0]) + EncodeAll(ps[1..])
  }

  /** The packet whose header starts `b`, without its data, and the length it announces. */
  function ReadHeader(b: seq<byte>): (Packet, u32)
    requires |b| >= OVERHEAD
  {
    (Packet(Get32(b, 0), b[4], b[5], Get16(b, 6), Get32(b, 8), Get32(b, 12), Get32(b, 16), []), Get32(b, 20))
  }

  lemma HeaderHasNoData(b: seq<byte>)
    requires |b| >= OVERHEAD
    ensures ReadHeader(b).0.data == []
  {
  }

  predicate InRange(p: Packet) { |p.data| < TWO_32 }

  lemma FirstFields(b: seq<byte>, p: Packet)
    requires |b| >= 8
    ensures b[..8] == FirstHalf(p) <==> Get32(b, 0) == p.conv && b[4] == p.cmd && b[5] == p.frg && Get16(b, 6) == p.wnd
  {
    hide Le32, Le16;
    GetPut32(b, 0, p.conv);
    GetPut16(b, 6, p.wnd);
    assert b[..8] == b[..4] + [b[4]] + [b[5]] + b[6..8];
    var h := FirstHalf(p);
    assert h[..4] == Le32(p.conv) && h[4] == p.cmd && h[5] == p.frg && h[6..8] == Le16(p.wnd);
    assert b[..8][..4] == b[..4] && b[..8][6..8] == b[6..8];
  }

  lemma SecondFields(b: seq<byte>, p: Packet)
    requires |b| >= OVERHEAD
    ensures b[8..24] == SecondHalf(p) <==>
            Get32(b, 8) == p.ts && Get32(b, 12) == p.sn && Get32(b, 16) == p.una && Get32(b, 20) == |p.data| % TWO_32
  {
    hide Le32, Get32, SecondHalf;
    var c, len := b[8..24], |p.data| % TWO_32;
    QuartersOf(b);
    SecondHalfIs(p);
    QuartersDecide(c, Le32(p.ts), Le32(p.sn), Le32(p.una), Le32(len));
    GetPut32(b, 8, p.ts);
    GetPut32(b, 12, p.sn);
    GetPut32(b, 16, p.una);
    GetPut32(b, 20, len);
  }

  lemma QuartersOf(b: seq<byte>)
    requires |b| >= OVERHEAD
    ensures var c := b[8..24];
            c[..4] == b[8..12] && c[4..8] == b[12..16] && c[8..12] == b[16..20] && c[12..] == b[20..24]
  {
    SubSlice(b, 8, 24, 8, 12);
    SubSlice(b, 8, 24, 12, 16);
    SubSlice(b, 8, 24, 16, 20);
    SubSlice(b, 8, 24, 20, 24);
    assert b[8..24][0..4] == b[8..24][..4] && b[8..24][12..16] == b[8..24][12..];
  }

  lemma SubSlice(b: seq<byte>, lo: nat, hi: nat, i: nat, j: nat)
    requires lo <= i <= j <= hi <= |b|
    ensures b[lo..hi][i - lo..j - lo] == b[i..j]
  {
    var c := b[lo..hi];
    var d := c[i - lo..j - lo];
    forall k | 0 <= k < j - i ensures d[k] == b[i..j][k] {
      assert d[k] == c[i - lo + k] == b[i + k];
    }
  }

  lemma SecondHalfIs(p: Packet)
    ensures SecondHalf(p) == Le32(p.ts) + Le32(p.sn) + Le32(p.una) + Le32(|p.data| % TWO_32)
  {
    hide Le32;
  }

  /** Sixteen bytes are four given quarters joined exactly when each of their quarters is the given one. */
  lemma QuartersDecide(c: seq<byte>, w: seq<byte>, x: seq<byte>, y: seq<byte>, z: seq<byte>)
    requires |c| == 16 && |w| == 4 && |x| == 4 && |y| == 4 && |z| == 4
    ensures c == w + x + y + z <==> c[..4] == w && c[4..8] == x && c[8..12] == y && c[12..] == z
  {
    HalvesDecide(c, w + x + y, z);
    HalvesDecide(c[..12], w + x, y);
    HalvesDecide(c[..12][..8], w, x);
    assert c[..12][..8][..4] == c[..4] && c[..12][..8][4..] == c[4..8] && c[..12][8..] == c[8..12];
  }

  lemma HalvesDecide(c: seq<byte>, x: seq<byte>, y: seq<byte>)
    requires |c| == |x| + |y|
    ensures c == x + y <==> c[..|x|] == x && c[|x|..] == y
  {
    assert c == c[..|x|] + c[|x|..];
    assert (x + y)[..|x|] == x && (x + y)[|x|..] == y;
  }

  /** The header read from `b` is the header of `p` exactly when `b` starts with the encoding of `p`'s header. */
  lemma HeaderFields(b: seq<byte>, p: Packet)
    requires |b| >= OVERHEAD && InRange(p)
    ensures ReadHeader(b) == (p.(data := []), |p.data|) <==> b[..OVERHEAD] == FirstHalf(p) + SecondHalf(p)
  {
    hide Le32, Get32, Le16, Get16, FirstHalf, SecondHalf;
    FirstFields(b, p);
    SecondFields(b, p);
    var h := FirstHalf(p) + SecondHalf(p);
    assert b[..OVERHEAD] == b[..8] + b[8..24];
    assert h[..8] == FirstHalf(p) && h[8..24] == SecondHalf(p);
    assert b[..OVERHEAD][..8] == b[..8] && b[..OVERHEAD][8..24] == b[8..24];
  }

  // ---- a datagram -----------------------------------------------------------

  datatype Ending = Consumed(rest: nat) | Failed(error: Error)

  datatype Parsed = Parsed(packets: Datagram, conv: u32, inputConv: bool, end: Ending)

  /** The parsing loop of `input`: the packets it hands on, in order, the conversation it ends with,
      and how it ends. */
  function Parse(b: seq<byte>, conv: u32, inputConv: bool): (r: Parsed)
    ensures r.end.Consumed? ==> r.end.rest <= |b|
  {
    if |b| < OVERHEAD then Parsed([], conv, inputConv, Consumed(|b|))
    else
      var (h, len) := ReadHeader(b);
      var body := b[OVERHEAD..];
      if h.conv != conv && !inputConv then Parsed([], conv, inputConv, Failed(ConvInconsistent(conv, h.conv)))
      else
        var waiting := inputConv && h.conv == conv;
        if |body| < len then Parsed([], h.conv, waiting, Failed(InvalidSegmentDataSize(len, |body|)))
        else if !KnownCmd(h.cmd) then Parsed([], h.conv, waiting, Failed(UnsupportedCmd(h.cmd)))
        else
          var next := Parse(body[len..], h.conv, waiting);
          next.(packets := [h.(data := body[..len])] + next.packets)
  }

  /** What a well-formed datagram for conversation `conv` is made of. */
  predicate Sendable(p: Packet, conv: u32) { InRange(p) && KnownCmd(p.cmd) && p.conv == conv }

  lemma ParseOfOne(p: Packet, rest: seq<byte>, conv: u32, inputConv: bool)
    requires Sendable(p, conv)
    ensures var r := Parse(rest, conv, inputConv);
            Parse(Encode(p) + rest, conv, inputConv) == r.(packets := [p] + r.packets)
  {
    hide ReadHeader, FirstHalf, SecondHalf;
    var b := Encode(p) + rest;
    assert b[..OVERHEAD] == FirstHalf(p) + SecondHalf(p);
    HeaderFields(b, p);
    assert b[OVERHEAD..] == p.data + rest;
    assert b[OVERHEAD..][..|p.data|] == p.data && b[OVERHEAD..][|p.data|..] == rest;
    assert ReadHeader(b).0.(data := p.data) == p;
  }

  /** Round trip: the loop reads back exactly the packets that were encoded, in order, and then goes
      on with whatever follows them. */
  lemma {:induction false} ParseOfEncoding(ps: Datagram, tail: seq<byte>, conv: u32, inputConv: bool)
    requires forall i | 0 <= i < |ps| :: Sendable(ps[i], conv)
    ensures var r := Parse(tail, conv, inputConv);
            Parse(EncodeAll(ps) + tail, conv, inputConv) == r.(packets := ps + r.packets)
  {
    var r := Parse(tail, conv, inputConv);
    hide Parse, Encode;
    if ps == [] {
      assert EncodeAll(ps) + tail == tail;
      assert ps + r.packets == r.packets;
    } else {
      var rest := EncodeAll(ps[1..]) + tail;
      assert EncodeAll(ps) + tail == Encode(ps[0]) + rest;
      ParseOfOne(ps[0], rest, conv, inputConv);
      ParseOfEncoding(ps[1..], tail, conv, inputConv);
      assert [ps[0]] + (ps[1..] + r.packets) == ps + r.packets;
    }
  }

  lemma ParseUnfold(b: seq<byte>, conv: u32, inputConv: bool) returns (n: nat, c: u32, w: bool)
    requires Parse(b, conv, inputConv).packets != []
    ensures OVERHEAD <= n <= |b|
    ensures var r, next := Parse(b, conv, inputConv), Parse(b[n..], c, w);
            r == next.(packets := [r.packets[0]] + next.packets) && Encode(r.packets[0]) == b[..n]
  {
    hide ReadHeader, FirstHalf, SecondHalf;
    var (h, len) := ReadHeader(b);
    n, c, w := OVERHEAD + len, h.conv, inputConv && h.conv == conv;
    assert b[OVERHEAD..][len..] == b[n..];
    var p := h.(data := b[OVERHEAD..][..len]);
    assert p == Parse(b, conv, inputConv).packets[0];
    HeaderHasNoData(b);
    HeaderFields(b, p);
    assert b[..n] == b[..OVERHEAD] + p.data;
  }

  /** The other direction: on any bytes whatever, what the loop handed on is what the bytes before the
      point where it stopped encode. */
  lemma {:induction false} EncodingOfParse(b: seq<byte>, conv: u32, inputConv: bool)
    ensures var r := Parse(b, conv, inputConv);
            EncodeAll(r.packets) <= b &&
              (r.end.Consumed? ==> r.end.rest < OVERHEAD && |EncodeAll(r.packets)| + r.end.rest == |b|)
    decreases |b|
  {
    hide Parse, Encode, EncodeAll;
    var r := Parse(b, conv, inputConv);
    if r.packets != [] {
      var n, c, w := ParseUnfold(b, conv, inputConv);
      EncodingOfParse(b[n..], c, w);
      var next := Parse(b[n..], c, w);
      EncodeAllCons(r.packets[0], next.packets);
      assert b == b[..n] + b[n..];
    } else {
      ParseOfNothing(b, conv, inputConv);
    }
  }

  /** Whatever the bytes, the loop itself never fails in any other way than with its three errors. */
  lemma {:induction false} ParseErrors(b: seq<byte>, conv: u32, inputConv: bool)
    ensures var end := Parse(b, conv, inputConv).end;
            end.Failed? ==>
              end.error.ConvInconsistent? || end.error.InvalidSegmentDataSize? || end.error.UnsupportedCmd?
    decreases |b|
  {
    hide ReadHeader;
    if |b| >= OVERHEAD {
      var (h, len) := ReadHeader(b);
      if OVERHEAD + len <= |b| {
        ParseErrors(b[OVERHEAD..][len..], h.conv, inputConv && h.conv == conv);
      }
    }
  }

  lemma ParseOfNothing(b: seq<byte>, conv: u32, inputConv: bool)
    requires Parse(b, conv, inputConv).packets == []
    ensures EncodeAll([]) == []
    ensures var r := Parse(b, conv, inputConv); r.end.Consumed? ==> r.end.rest == |b| < OVERHEAD
  {
    hide ReadHeader;
  }

  lemma EncodeAllCons(p: Packet, ps: Datagram)
    ensures EncodeAll([p] + ps) == Encode(p) + EncodeAll(ps)
  {
    assert ([p] + ps)[1..] == ps;
  }

  lemma {:induction false} EncodeAllAppend(ps: Datagram, qs: Datagram)
    ensures EncodeAll(ps + qs) == EncodeAll(ps) + EncodeAll(qs)
  {
    if ps == [] {
      assert ps + qs == qs;
    } else {
      assert (ps + qs)[1..] == ps[1..] + qs;
      EncodeAllAppend(ps[1..], qs);
    }
  }

  // ---- where the bytes are ----------------------------------------------------

  /** The four bytes of `x`, the lowest first. */
  ghost predicate Holds32(b: seq<byte>, i: nat, x: u32) {
    && i + 4 <= |b| && b[i] == x % 0x100 && b[i + 1] == x / 0x100 % 0x100
    && b[i + 2] == x / 0x1_0000 % 0x100 && b[i + 3] == x / 0x100_0000
  }

  lemma Le32Holds(x: u32)
    ensures Holds32(Le32(x), 0, x)
  {
    assert x % TWO_16 % 0x100 == x % 0x100;
    assert x % TWO_16 / 0x100 == x / 0x100 % 0x100;
    assert x / TWO_16 / 0x100 == x / 0x100_0000;
  }

  lemma HoldsAt(b: seq<byte>, i: nat, x: u32)
    requires i + 4 <= |b| && b[i..i + 4] == Le32(x)
    ensures Holds32(b, i, x)
  {
    hide Le32;
    Le32Holds(x);
    var c := b[i..i + 4];
    assert c[0] == b[i] && c[1] == b[i + 1] && c[2] == b[i + 2] && c[3] == b[i + 3];
  }

  /** An encoded segment, byte by byte: every field at its place, lowest byte first, and then the data. */
  lemma EncodedBytes(p: Packet)
    requires InRange(p)
    ensures var b := Encode(p);
            && Holds32(b, 0, p.conv) && b[4] == p.cmd && b[5] == p.frg && b[6] == p.wnd % 0x100 && b[7] == p.wnd / 0x100
            && Holds32(b, 8, p.ts) && Holds32(b, 12, p.sn) && Holds32(b, 16, p.una) && Holds32(b, 20, |p.data|)
            && b[24..] == p.data
  {
    hide Le32, Holds32;
    var b := Encode(p);
    var c := b[8..24];
    assert b == FirstHalf(p) + (SecondHalf(p) + p.data);
    assert b[..8] == FirstHalf(p) && c == SecondHalf(p);
    assert b[0..4] == Le32(p.conv) && b[6..8] == Le16(p.wnd);
    QuartersOf(b);
    QuartersDecide(c, Le32(p.ts), Le32(p.sn), Le32(p.una), Le32(|p.data| % TWO_32));
    HoldsAt(b, 0, p.conv);
    HoldsAt(b, 8, p.ts);
    HoldsAt(b, 12, p.sn);
    HoldsAt(b, 16, p.una);
    HoldsAt(b, 20, |p.data|);
  }

  // ---- what the loop accepts, and why it stops ---------------------------------

  /** Everything handed on is a known command, and of the conversation the endpoint ends with; while a
      conversation is awaited, segments of the endpoint's own are taken too, and it stays awaited. */
  lemma {:induction false} ParsedAreKnown(b: seq<byte>, conv: u32, inputConv: bool)
    ensures var r := Parse(b, conv, inputConv);
            && (forall i | 0 <= i < |r.packets| ::
                  KnownCmd(r.packets[i].cmd) &&
                    (r.packets[i].conv == r.conv || (inputConv && r.packets[i].conv == conv)))
            && (!inputConv ==> r.conv == conv) && (r.inputConv ==> inputConv && r.conv == conv)
    decreases |b|
  {
    hide ReadHeader;
    if |b| >= OVERHEAD {
      var (h, len) := ReadHeader(b);
      var waiting := inputConv && h.conv == conv;
      if (h.conv == conv || inputConv) && OVERHEAD + len <= |b| && KnownCmd(h.cmd) {
        var rest := b[OVERHEAD..][len..];
        ParsedAreKnown(rest, h.conv, waiting);
        var r, next := Parse(b, conv, inputConv), Parse(rest, h.conv, waiting);
        forall i | 0 <= i < |r.packets|
          ensures KnownCmd(r.packets[i].cmd)
          ensures r.packets[i].conv == r.conv || (inputConv && r.packets[i].conv == conv)
        {
          assert i > 0 ==> r.packets[i] == next.packets[i - 1];
        }
      }
    }
  }

  /** Why parsing stops at `rest`, the bytes not handed on: there is less than a header, or the header there is
      of another conversation, announces more data than there is, or carries an unknown command; checked in
      this order. */
  ghost predicate StopsAt(rest: seq<byte>, r: Parsed) {
    if |rest| < OVERHEAD then r.end == Consumed(|rest|)
    else
      var conv, cmd, len := Get32(rest, 0), rest[4], Get32(rest, 20);
      if conv != r.conv then r.end == Failed(ConvInconsistent(r.conv, conv)) && !r.inputConv
      else if |rest| - OVERHEAD < len then r.end == Failed(InvalidSegmentDataSize(len, |rest| - OVERHEAD))
      else !KnownCmd(cmd) && r.end == Failed(UnsupportedCmd(cmd))
  }

  lemma StopsHere(b: seq<byte>, conv: u32, inputConv: bool)
    requires Parse(b, conv, inputConv).packets == []
    ensures StopsAt(b, Parse(b, conv, inputConv))
  {
    hide Get32, Get16;
  }

  lemma StopsLater(rest: seq<byte>, r: Parsed, ps: Datagram)
    requires StopsAt(rest, r)
    ensures StopsAt(rest, r.(packets := ps))
  {
    hide Get32;
  }

  lemma {:induction false} ParseStops(b: seq<byte>, conv: u32, inputConv: bool)
    ensures var r := Parse(b, conv, inputConv); var n := |EncodeAll(r.packets)|;
            n <= |b| && EncodeAll(r.packets) == b[..n] && StopsAt(b[n..], r)
    decreases |b|
  {
    hide Parse, Encode, EncodeAll, StopsAt;
    var r := Parse(b, conv, inputConv);
    if r.packets != [] {
      var k, c, w := ParseUnfold(b, conv, inputConv);
      ParseStops(b[k..], c, w);
      var next := Parse(b[k..], c, w);
      var n := |EncodeAll(next.packets)|;
      EncodeAllCons(r.packets[0], next.packets);
      assert b[..k] + b[k..][..n] == b[..k + n] && b[k..][n..] == b[k + n..];
      StopsLater(b[k + n..], next, r.packets);
    } else {
      ParseOfNothing(b, conv, inputConv);
      StopsHere(b, conv, inputConv);
      assert b[..0] == [] && b[0..] == b;
    }
  }

  // ---- the XOR layer --------------------------------------------------------

  /** Bitwise exclusive or, lowest bit first. */
  function Xor(a: nat, k: nat): nat
    decreases a + k
  {
    if a == 0 && k == 0 then 0 else (if a % 2 == k % 2 then 0 else 1) + 2 * Xor(a / 2, k / 2)
  }

  lemma Halve(bit: nat, h: nat)
    requires bit < 2
    ensures (bit + 2 * h) / 2 == h && (bit + 2 * h) % 2 == bit
  {
  }

  lemma XorStep(bit: nat, h: nat, k: nat)
    requires bit < 2
    ensures Xor(bit + 2 * h, k) == (if bit == k % 2 then 0 else 1) + 2 * Xor(h, k / 2)
  {
    Halve(bit, h);
    if bit + 2 * h == 0 && k == 0 {
      assert Xor(0, 0) == 0;
    }
  }

  lemma {:induction false} XorTwice(a: nat, k: nat)
    ensures Xor(Xor(a, k), k) == a
    decreases a + k
  {
    if a == 0 && k == 0 {
    } else {
      XorTwice(a / 2, k / 2);
      XorStep(if a % 2 == k % 2 then 0 else 1, Xor(a / 2, k / 2), k);
    }
  }

  function Pow2(n: nat): nat { if n == 0 then 1 else 2 * Pow2(n - 1) }

  lemma {:induction false} XorFits(a: nat, k: nat, n: nat)
    requires a < Pow2(n) && k < Pow2(n)
    ensures Xor(a, k) < Pow2(n)
  {
    if n > 0 {
      XorFits(a / 2, k / 2, n - 1);
    }
  }

  function XorByte(a: byte, k: byte): byte {
    assert Pow2(8) == 0x100;
    XorFits(a, k, 8);
    Xor(a, k)
  }

  /** `data` under the repeating key; an empty key changes nothing. */
  function Mask(data: seq<byte>, key: Key): (m: seq<byte>)
    ensures |m| == |data|
  {
    if key == [] then data else seq(|data|, i requires 0 <= i < |data| => XorByte(data[i], key[i % |key|]))
  }

  datatype Option<T> = None | Some(value: T)

  /** A datagram leaves in the clear without a key; with one, all but its first four bytes are masked. */
  function Seal(key: Option<Key>, b: seq<byte>): (m: seq<byte>)
    requires key.Some? ==> |b| >= 4
    ensures |m| == |b|
  {
    if key.None? then b else b[..4] + Mask(b[4..], key.value)
  }

  lemma MaskTwice(data: seq<byte>, key: Key)
    ensures Mask(Mask(data, key), key) == data
  {
    if key != [] {
      forall i | 0 <= i < |data| ensures Mask(Mask(data, key), key)[i] == data[i] {
        XorTwice(data[i], key[i % |key|]);
      }
    }
  }

  /** Decoding with the same key undoes what sending did, and leaves the conversation readable. */
  lemma UnsealSeal(key: Option<Key>, b: seq<byte>)
    requires |b| >= 4
    ensures Seal(key, Seal(key, b)) == b && Seal(key, b)[..4] == b[..4]
  {
    if key.Some? {
      MaskTwice(b[4..], key.value);
      assert Seal(key, b)[4..] == Mask(b[4..], key.value);
    }
  }

  // ---- the mask masks ----------------------------------------------------------

  /** Bit `n` of a number. */
  function Bit(a: nat, n: nat): nat { if n == 0 then a % 2 else Bit(a / 2, n - 1) }

  lemma {:induction false} XorBits(a: nat, k: nat, n: nat)
    ensures Bit(Xor(a, k), n) == if Bit(a, n) == Bit(k, n) then 0 else 1
    decreases n
  {
    if a == 0 && k == 0 {
      ZeroBits(n);
    } else {
      Halve(if a % 2 == k % 2 then 0 else 1, Xor(a / 2, k / 2));
      if n > 0 {
        XorBits(a / 2, k / 2, n - 1);
      }
    }
  }

  lemma {:induction false} ZeroBits(n: nat)
    ensures Bit(0, n) == 0
  {
    if n > 0 {
      ZeroBits(n - 1);
    }
  }

  /** Masking a byte is exclusive or: a bit of the result is set exactly when the bits differ. */
  lemma XorByteBits(a: byte, k: byte, n: nat)
    ensures Bit(XorByte(a, k), n) == if Bit(a, n) == Bit(k, n) then 0 else 1
  {
    XorBits(a, k, n);
  }

  /** What a sealed datagram holds at each position: the first four bytes as they were, every other one masked
      with the byte of the key whose turn it is. */
  lemma SealedBytes(key: Key, b: seq<byte>, i: nat, n: nat)
    requires key != [] && i < |b| && |b| >= 4
    ensures var m := Seal(Some(key), b);
            if i < 4 then m[i] == b[i]
            else Bit(m[i], n) == if Bit(b[i], n) == Bit(key[(i - 4) % |key|], n) then 0 else 1
  {
    hide XorByte, Bit;
    if i >= 4 {
      assert Seal(Some(key), b)[i] == Mask(b[4..], key)[i - 4];
      assert b[4..][i - 4] == b[i];
      XorByteBits(b[i], key[(i - 4) % |key|], n);
    }
  }

  /** Without a key, and with an empty one, a datagram leaves as it is. */
  lemma SealedInTheClear(b: seq<byte>)
    requires |b| >= 4
    ensures Seal(None, b) == b && Seal(Some([]), b) == b
  {
    assert b[..4] + b[4..] == b;
  }

  /** What a datagram looks like on the wire. */
  function OnWire(key: Option<Key>, d: Datagram): seq<byte> {
    var b := EncodeAll(d);
    if |b| < 4 then b else Seal(key, b)
  }

  /** What the socket sees of a list of datagrams. */
  function Wired(key: Option<Key>, ds: seq<Datagram>): (w: seq<seq<byte>>)
    ensures |w| == |ds|
  {
    seq(|ds|, i requires 0 <= i < |ds| => OnWire(key, ds[i]))
  }

  lemma WiredSnoc(key: Option<Key>, ds: seq<Datagram>, d: Datagram)
    ensures Wired(key, ds + [d]) == Wired(key, ds) + [OnWire(key, d)]
  {
  }
}
