/** A reader on a living connection: reads of any sizes between any steps of the two endpoints and the network. */
module Streams {
  import opened Arith
  import opened Errors
  import opened Wire
  import opened Chunks
  import opened Receiving
  import opened Engine
  import opened Network
  import opened Preservation
  import opened Safety
  import K = KcpReaders

  /** A step of the system, or a read on the side that has the reader. */
  datatype Turn = Act(action: Action) | Ask(request: K.Request)

  /** The system, the unread rest of the reader's last message, and all bytes it has given. */
  datatype Stream = Stream(sys: System, rest: seq<byte>, handed: seq<byte>)

  function Given(r: K.Reading): seq<byte> { if r.out.Ready? && r.out.value.Ok? then r.out.value.value else [] }

  function ReadOf(n: Node, rest: seq<byte>, q: K.Request): K.Reading { K.Read(n.st, rest, q.size, q.locked, q.broken) }

  function Turned(x: Stream, side: Side, t: Turn): Stream
    requires Runnable(x.sys)
  {
    match t
    case Act(a) => x.(sys := Step(x.sys, a))
    case Ask(q) =>
      var n := At(x.sys, side);
      var r := ReadOf(n, x.rest, q);
      Stream(With(x.sys, side, n.(st := r.st, got := n.got + r.popped)), r.rest, x.handed + Given(r))
  }

  /** What a read does to the system is nothing, or a `recv` of the next message. */
  lemma ReadIsRecv(sys: System, side: Side, rest: seq<byte>, q: K.Request) returns (acts: seq<Action>)
    requires Runnable(sys)
    ensures var n := At(sys, side); var r := ReadOf(n, rest, q);
            && Run(sys, acts) == With(sys, side, n.(st := r.st, got := n.got + r.popped))
            && Given(r) + r.rest == rest + Flatten(r.popped) && |Given(r)| <= q.size
  {
    hide K.Read, Receive, PeekSize, Flatten;
    var n := At(sys, side);
    var r := ReadOf(n, rest, q);
    K.ReadFacts(n.st, rest, q);
    if r.popped == [] {
      acts := [];
      assert n.got + [] == n.got;
    } else {
      var a := DoRecv(side, PeekSize(ChunksOf(n.st.rcv.queue)).value);
      acts := [a];
      StepRuns(sys, a);
      RunOne(sys, a);
      assert r.popped == [r.popped[0]];
    }
  }

  lemma RunOne(sys: System, a: Action)
    requires Runnable(sys) && Runnable(Step(sys, a))
    ensures Run(sys, [a]) == Step(sys, a)
  {
    hide Step;
    assert [a][1..] == [];
  }

  lemma TurnedRuns(x: Stream, side: Side, t: Turn)
    requires Runnable(x.sys)
    ensures Runnable(Turned(x, side, t).sys)
  {
    hide K.Read, Step;
    match t {
      case Act(a) => StepRuns(x.sys, a);
      case Ask(q) => var acts := ReadIsRecv(x.sys, side, x.rest, q);
    }
  }

  function TurnAll(x: Stream, side: Side, turns: seq<Turn>): (y: Stream)
    requires Runnable(x.sys)
    ensures Runnable(y.sys)
  {
    if turns == [] then x
    else
      var front := TurnAll(x, side, turns[..|turns| - 1]);
      TurnedRuns(front, side, turns[|turns| - 1]);
      Turned(front, side, turns[|turns| - 1])
  }

  /** Nobody else calls `recv` on the reader's side. */
  predicate Exclusive(turns: seq<Turn>, side: Side) {
    forall i | 0 <= i < |turns| :: turns[i].Act? && turns[i].action.DoRecv? ==> turns[i].action.side != side
  }

  /** What the reader has given and what it holds back is what `recv` has returned on its side. */
  predicate Faithful(x: Stream, side: Side) { x.handed + x.rest == Flatten(At(x.sys, side).got) }

  lemma OtherStepsLeaveGot(sys: System, a: Action, side: Side)
    requires Runnable(sys) && (a.DoRecv? ==> a.side != side)
    ensures At(Step(sys, a), side).got == At(sys, side).got
  {
    hide Update, FlushAsync, FlushAck, Intake, SendData, Receive, OnWire;
  }

  lemma TurnedIsFaithful(x: Stream, side: Side, t: Turn) returns (acts: seq<Action>)
    requires Runnable(x.sys) && Faithful(x, side) && Exclusive([t], side)
    ensures Faithful(Turned(x, side, t), side) && Run(x.sys, acts) == Turned(x, side, t).sys
  {
    hide K.Read, Step, Flatten, Run;
    assert [t][0] == t;
    match t {
      case Act(a) =>
        acts := [a];
        StepRuns(x.sys, a);
        RunOne(x.sys, a);
        OtherStepsLeaveGot(x.sys, a, side);
      case Ask(q) =>
        acts := ReadIsRecv(x.sys, side, x.rest, q);
        var n := At(x.sys, side);
        var r := ReadOf(n, x.rest, q);
        FlattenAppend(n.got, r.popped);
        Associative(x.handed, Given(r), r.rest);
        Associative(x.handed, x.rest, Flatten(r.popped));
    }
  }

  /** However reads and steps are mixed, the system makes one of its runs, and the reader has given the bytes
      `recv` has returned, up to the rest it holds back. */
  lemma {:induction false} ReadsDeliverMessages(s: System, side: Side, turns: seq<Turn>) returns (acts: seq<Action>)
    requires Runnable(s) && At(s, side).got == [] && Exclusive(turns, side)
    ensures var x := TurnAll(Stream(s, [], []), side, turns); x.sys == Run(s, acts) && Faithful(x, side)
  {
    hide Turned, Faithful;
    if turns == [] {
      acts := [];
      NothingRead(s, side);
    } else {
      var n := |turns| - 1;
      acts := ReadsDeliverMessages(s, side, turns[..n]);
      var more := TurnedIsFaithful(TurnAll(Stream(s, [], []), side, turns[..n]), side, turns[n]);
      RunAppend(s, acts, more);
      acts := acts + more;
    }
  }

  lemma NothingRead(s: System, side: Side)
    requires At(s, side).got == []
    ensures Faithful(Stream(s, [], []), side)
  {
  }

  /** The stream a reader gives is, at every moment and for any sizes of its reads, a prefix of what the other
      side's `send` has taken over. */
  lemma StreamIsExact(s: System, side: Side, turns: seq<Turn>, conv: u32)
    requires Begins(s, conv) && Exclusive(turns, side)
    ensures Runnable(s)
    ensures var x := TurnAll(Stream(s, [], []), side, turns); x.handed <= Flatten(At(x.sys, Other(side)).sent)
  {
    hide Run, TurnAll, Flatten, Begins, Exclusive, Faithful;
    NewSystem(s, side, conv);
    var acts := ReadsDeliverMessages(s, side, turns);
    ExactDelivery(s, acts, Other(side), conv);
    FaithfulPrefix(TurnAll(Stream(s, [], []), side, turns), side);
  }

  lemma NewSystem(s: System, side: Side, conv: u32)
    requires Begins(s, conv)
    ensures Runnable(s) && At(s, side).got == []
  {
  }

  lemma FaithfulPrefix(x: Stream, side: Side)
    requires Faithful(x, side)
    ensures x.handed <= Flatten(At(x.sys, side).got)
  {
    hide Flatten;
  }

  /** So it does not depend on the sizes of the reads, nor on what the network does between them: of two lives of
      a connection in which the sender has sent the same, one further than the other perhaps, what one reader
      has given is the beginning of what the other has. */
  lemma ReadSizesDoNotMatter(s: System, t: System, side: Side, turns: seq<Turn>, others: seq<Turn>, c: u32, d: u32)
    requires Begins(s, c) && Begins(t, d) && Exclusive(turns, side) && Exclusive(others, side)
    requires Runnable(s) && Runnable(t)
    requires var x, y := TurnAll(Stream(s, [], []), side, turns), TurnAll(Stream(t, [], []), side, others);
             Flatten(At(x.sys, Other(side)).sent) <= Flatten(At(y.sys, Other(side)).sent)
    ensures var x, y := TurnAll(Stream(s, [], []), side, turns), TurnAll(Stream(t, [], []), side, others);
            x.handed <= y.handed || y.handed <= x.handed
  {
    hide TurnAll, Flatten, Begins, Exclusive;
    StreamIsExact(s, side, turns, c);
    StreamIsExact(t, side, others, d);
    var x, y := TurnAll(Stream(s, [], []), side, turns), TurnAll(Stream(t, [], []), side, others);
    K.PrefixesCompare(x.handed, y.handed, Flatten(At(y.sys, Other(side)).sent));
  }
}
