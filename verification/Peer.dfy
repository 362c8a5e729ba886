/** The peer around an engine: it remembers when the next update is needed. */
module KcpPeers {
  import opened Arith
  import opened Errors
  import opened Wire
  import opened Chunks
  import opened Endpoint
  import opened KcpEngine
  import E = Engine
  import F = Flushing
  import T = Timing

  /** Every operation runs under the peer's lock, so each is one step. The ghost fields record the engine as
      the last update left it, when that was, and what has happened since; `armed` says that
      `nextUpdateTime` still is what that update stored. */
  class KcpPeer {
    const kcp: Kcp
    var nextUpdateTime: u32
    var isBrokenPipe: bool

    ghost var armed: bool
    ghost var anchor: E.State
    ghost var anchorTime: u32
    ghost var since: seq<T.Event>

    ghost predicate Scheduled()
      reads this, kcp
    {
      if armed then
        && anchor.cfg.mss > 0 && anchor.clock.updated
        && nextUpdateTime == Add32(E.Check(anchor, anchorTime), anchorTime)
        && kcp.State() == T.ApplyAll(anchor, since)
      else nextUpdateTime <= anchorTime
    }

    ghost predicate Valid()
      reads this, kcp, kcp.output
    {
      kcp.Valid() && Scheduled()
    }

    constructor (kcp: Kcp)
      requires kcp.Valid()
      ensures Valid() && this.kcp == kcp && nextUpdateTime == 0 && !isBrokenPipe
    {
      this.kcp := kcp;
      nextUpdateTime, isBrokenPipe := 0, false;
      armed, anchorTime, since := false, 0, [];
      anchor := kcp.State();
    }

    static lemma ApplyAllSnoc(s: E.State, es: seq<T.Event>, e: T.Event)
      requires s.cfg.mss > 0 && s.clock.updated
      ensures T.ApplyAll(s, es + [e]) == T.Apply(T.ApplyAll(s, es), e)
    {
      hide T.Apply;
      assert (es + [e])[..|es|] == es;
    }

    /** A datagram from the socket. When the engine takes it, the next update is due at once. */
    method Input(data: array<byte>, decode: bool) returns (r: Result<nat>)
      requires Valid() && ReceiveRoom(kcp.State(), data.Length)
      modifies this, kcp, data
      ensures Valid() && unchanged(this`isBrokenPipe)
      ensures data[..] == old(if decode && data.Length >= 4 then Seal(kcp.output.key, data[..]) else data[..])
      ensures kcp.State() == E.Intake(old(kcp.State()), kcp.output.key, old(data[..]), decode).st
      ensures r == E.Intake(old(kcp.State()), kcp.output.key, old(data[..]), decode).result
      ensures nextUpdateTime == if r.Ok? then 0 else old(nextUpdateTime)
    {
      hide E.Input, T.ApplyAll, EndInv, Seal, ReceiveRoom, Kcp.Valid, Kcp.State;
      MssIsPositive();
      r := kcp.Input(data, decode);
      if r.Ok? {
        nextUpdateTime := 0;
        armed := false;
      } else if armed && !(decode && data.Length < 4) {
        ApplyAllSnoc(anchor, since, T.Arrive(data[..]));
        since := since + [T.Arrive(data[..])];
      }
    }

    method SetBrokenPipe()
      requires Valid()
      modifies this`isBrokenPipe
      ensures Valid() && isBrokenPipe
    {
      isBrokenPipe := true;
    }

    method Send(data: seq<byte>) returns (r: Result<nat>)
      requires Valid()
      modifies this`since, kcp
      ensures Valid()
      ensures kcp.State() == E.SendData(old(kcp.State()), data).st && r == E.SendData(old(kcp.State()), data).result
    {
      hide E.SendData, T.ApplyAll, EndInv, Kcp.Valid, Kcp.State;
      if armed {
        ApplyAllSnoc(anchor, since, T.Submit(data));
        since := since + [T.Submit(data)];
      }
      r := kcp.Send(data);
    }

    method RecvBuf(user: array<byte>) returns (r: Result<nat>)
      requires Valid() && ReceiveRoom(kcp.State(), 0)
      modifies this`since, kcp, user
      ensures Valid()
      ensures kcp.State() == E.Receive(old(kcp.State()), user.Length).st
      ensures match E.Receive(old(kcp.State()), user.Length).result
              case Err(e) => r == Err(e) && user[..] == old(user[..])
              case Ok(data) => r == Ok(|data|) && |data| <= user.Length && user[..] == data + old(user[..])[|data|..]
    {
      hide E.Receive, T.ApplyAll, EndInv, Kcp.Valid, Kcp.State;
      if armed {
        ApplyAllSnoc(anchor, since, T.Read(user.Length));
        since := since + [T.Read(user.Length)];
      }
      r := kcp.Recv(user);
    }

    method Flush() returns (r: Result<()>)
      requires Valid() && SendRoom(kcp.State())
      modifies this`since, kcp, kcp.output
      ensures Valid()
      ensures var o := E.FlushAsync(old(kcp.State()), old(kcp.output.room));
              kcp.State() == o.st && kcp.emitted == old(kcp.emitted) + o.sent &&
                r == if o.ok then Ok(()) else Err(IoError)
    {
      hide E.FlushAsync, T.ApplyAll, EndInv, Kcp.Valid, Kcp.State;
      if armed {
        ApplyAllSnoc(anchor, since, T.FlushNow(kcp.output.room));
        since := since + [T.FlushNow(kcp.output.room)];
      }
      r := kcp.FlushAsync();
    }

    /** The test the update loop makes before it calls `Update`. */
    method NeedUpdate(current: u32) returns (need: bool)
      ensures need == (nextUpdateTime < current)
    {
      need := nextUpdateTime < current;
    }

    static lemma AfterUpdate(s: E.State, now: u32, limit: nat)
      ensures E.Update(s, now, limit).st.clock.updated && E.Update(s, now, limit).st.cfg == s.cfg
    {
      hide E.Flush, E.Slap;
      F.FlushState(s.(clock := E.Schedule(E.Touch(s.clock, now), s.cfg.interval)), limit);
    }

    method Update(current: u32) returns (r: Result<()>)
      requires Valid() && SendRoom(kcp.State())
      modifies this, kcp, kcp.output
      ensures Valid() && unchanged(this`isBrokenPipe)
      ensures current < old(nextUpdateTime) ==>
                r == Ok(()) && kcp.State() == old(kcp.State()) && kcp.emitted == old(kcp.emitted) &&
                  nextUpdateTime == old(nextUpdateTime)
      ensures current >= old(nextUpdateTime) ==>
                var o := E.Update(old(kcp.State()), current, old(kcp.output.room));
                && kcp.State() == o.st && kcp.emitted == old(kcp.emitted) + o.sent && anchorTime == current
                && (o.ok ==> r == Ok(()) && nextUpdateTime == Add32(E.Check(o.st, current), current))
                && (!o.ok ==> r == Err(IoError) && nextUpdateTime == old(nextUpdateTime))
    {
      hide E.Update, E.Check, SendRoom, EndInv, T.ApplyAll, Kcp.Valid, Kcp.State;
      if current < nextUpdateTime {
        return Ok(());
      }
      MssIsPositive();
      AfterUpdate(kcp.State(), current, kcp.output.room);
      r := kcp.Update(current);
      anchor, anchorTime, since := kcp.State(), current, [];
      NothingSince(anchor);
      armed := r.Ok?;
      if r.Ok? {
        var d := kcp.Check(current);
        nextUpdateTime := Add32(d, current);
      }
    }

    lemma MssIsPositive()
      requires kcp.Valid()
      ensures kcp.State().cfg.mss > 0
    {
    }

    static lemma NothingSince(s: E.State)
      requires s.cfg.mss > 0 && s.clock.updated
      ensures T.ApplyAll(s, []) == s
    {
    }

    /** What skipping the calls before `nextUpdateTime` costs: nothing. Whatever has happened since the last
        update, an update at such a time would only have read the clock. */
    lemma SkippedUpdatesAreIdle(t: u32, limit: nat)
      requires Valid() && anchorTime <= t < nextUpdateTime
      ensures var s := kcp.State(); E.Update(s, t, limit) == E.Outcome(s.(clock := s.clock.(current := t)), [], true)
    {
      hide E.Update, T.ApplyAll, EndInv, E.PacketWait;
      NoWrap(E.Check(anchor, anchorTime), anchorTime);
      T.SkippingIsSound(anchor, anchorTime, since, t, limit);
    }

    static lemma NoWrap(d: u32, t: u32)
      requires Add32(d, t) > t
      ensures Add32(d, t) == d + t
    {
    }

    /** `NeedUpdate` also skips a call at `nextUpdateTime` itself. That call is idle in all cases but one: it
        would flush exactly when it was the flush time, and no earlier retransmission, that `check` named. */
    lemma SkippedAtTheTime(limit: nat)
      requires Valid() && anchorTime < nextUpdateTime
      ensures var s, t := kcp.State(), nextUpdateTime;
              if E.Check(anchor, anchorTime) == Timediff(s.clock.flushAt, anchorTime)
              then E.Update(s, t, limit) == E.Flush(s.(clock := E.Schedule(E.Touch(s.clock, t), s.cfg.interval)), limit)
              else E.Update(s, t, limit) == E.Outcome(s.(clock := s.clock.(current := t)), [], true)
    {
      hide E.Update, E.Flush, E.Schedule, EndInv, E.PacketWait;
      NoWrap(E.Check(anchor, anchorTime), anchorTime);
      T.SkippingIsSound(anchor, anchorTime, since, nextUpdateTime, limit);
    }
  }
}
