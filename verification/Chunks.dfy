/** What the engine carries: fragments of messages, numbered by the sender and joined by the receiver. */
module Chunks {
  import opened Arith
  import opened Errors
  import opened Wire

  /** The part of a segment that is the user's: its bytes, and how many fragments of the message follow. */
  datatype Chunk = Chunk(frg: u8, data: seq<byte>)

  function ChunkOf(p: Packet): Chunk { Chunk(p.frg, p.data) }

  function ChunksOf(ps: seq<Packet>): (cs: seq<Chunk>)
    ensures |cs| == |ps|
  {
    seq(|ps|, i requires 0 <= i < |ps| => ChunkOf(ps[i]))
  }

  function Bytes(cs: seq<Chunk>): seq<byte> {
    if cs == [] then [] else cs[0].data + Bytes(cs[1..])
  }

  function Flatten<T>(ss: seq<seq<T>>): seq<T> {
    if ss == [] then [] else ss[0] + Flatten(ss[1..])
  }

  lemma {:induction false} BytesAppend(a: seq<Chunk>, b: seq<Chunk>)
    ensures Bytes(a + b) == Bytes(a) + Bytes(b)
  {
    if a == [] {
      assert a + b == b;
    } else {
      assert (a + b)[1..] == a[1..] + b;
      BytesAppend(a[1..], b);
    }
  }

  lemma {:induction false} FlattenAppend<T>(a: seq<seq<T>>, b: seq<seq<T>>)
    ensures Flatten(a + b) == Flatten(a) + Flatten(b)
  {
    if a == [] {
      assert a + b == b;
    } else {
      assert (a + b)[1..] == a[1..] + b;
      FlattenAppend(a[1..], b);
    }
  }

  lemma Associative<T>(a: seq<T>, b: seq<T>, c: seq<T>)
    ensures a + (b + c) == a + b + c
  {
  }

  lemma SplitAt<T>(s: seq<T>, i: nat)
    requires i <= |s|
    ensures s[..i] + s[i..] == s
  {
  }

  lemma FlattenOne<T>(a: seq<seq<T>>, x: seq<T>)
    ensures Flatten(a + [x]) == Flatten(a) + x
  {
    FlattenAppend(a, [x]);
    assert Flatten([x]) == x + Flatten([]);
  }

  /** How many chunks the first message takes up: through the first chunk with `frg == 0`, or all of
      them when there is none. */
  function MessageEnd(cs: seq<Chunk>): (n: nat)
    ensures n <= |cs|
    ensures cs != [] ==> n > 0
  {
    if cs == [] then 0 else if cs[0].frg == 0 then 1 else 1 + MessageEnd(cs[1..])
  }

  /** The size `recv` needs for the message at the front of the queue. The comparison with the queue
      length adds one to `frg` in eight bits. */
  function PeekSize(cs: seq<Chunk>): Result<nat> {
    if cs == [] then Err(RecvQueueEmpty)
    else if cs[0].frg == 0 then Ok(|cs[0].data|)
    else if |cs| < (cs[0].frg + 1) % 0x100 then Err(ExpectingFragment)
    else Ok(|Bytes(cs[..MessageEnd(cs)])|)
  }

  /** What `PeekSize` announces is what popping through the message's last fragment yields, whatever
      the queue holds. */
  lemma PeekSizeIsMessageSize(cs: seq<Chunk>)
    ensures PeekSize(cs).Ok? ==> cs != [] && PeekSize(cs).value == |Bytes(cs[..MessageEnd(cs)])|
  {
    if PeekSize(cs).Ok? && cs[0].frg == 0 {
      assert cs[..1][1..] == [];
    }
  }
}
