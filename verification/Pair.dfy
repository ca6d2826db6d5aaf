/** Two connection records and everything that happens to them: a run of module Network.

    Whatever the users of the two records do, whenever they are ticked, and in whatever order old
    and new frames of one are handed to the other, the history is a run, so that every result about
    runs is one about the records.
  */
module Pairs {
  import opened PacketNumbers
  import opened Packets
  import opened Connection
  import opened Rings
  import opened ChaosConnection
  import opened Network
  import opened Integrity
  import opened Endpoints

  lemma RunExtends(states: seq<System>, events: seq<Event>, e: Event)
    requires Run(states, events) && CanPlay(states[|events|], e)
    ensures Run(states + [Play(states[|events|], e)], events + [e])
  {
    hide Play; hide CanPlay; hide Initial;
    var states1, events1 := states + [Play(states[|events|], e)], events + [e];
    forall i | 0 <= i < |events1|
      ensures CanPlay(states1[i], events1[i]) && states1[i + 1] == Play(states1[i], events1[i])
    {
      if i < |events| {
        assert states1[i] == states[i] && states1[i + 1] == states[i + 1] && events1[i] == events[i];
      }
    }
  }

  class Pair {
    const a: Endpoint
    const b: Endpoint
    ghost var states: seq<System>
    ghost var events: seq<Event>

    ghost predicate Apart() {
      && a != b && a.conn != b.conn
      && a.conn.sendq != b.conn.sendq && a.conn.sendq != b.conn.rcvq
      && a.conn.rcvq != b.conn.sendq && a.conn.rcvq != b.conn.rcvq
    }

    ghost predicate Valid()
      reads this, a, a.conn, a.conn.sendq, a.conn.rcvq, b, b.conn, b.conn.sendq, b.conn.rcvq
    {
      Apart() && a.Valid() && b.Valid() && Run(states, events) && states[|events|] == System(a.side, b.side)
    }

    /** Two records that a handshake has matched. */
    constructor (a: Endpoint, b: Endpoint)
      requires a != b && a.conn != b.conn
      requires a.conn.sendq != b.conn.sendq && a.conn.sendq != b.conn.rcvq
      requires a.conn.rcvq != b.conn.sendq && a.conn.rcvq != b.conn.rcvq
      requires a.Valid() && b.Valid() && Initial(System(a.side, b.side))
      ensures Valid() && this.a == a && this.b == b && events == []
    {
      this.a, this.b := a, b;
      states, events := [System(a.side, b.side)], [];
    }

    /** One of the two, and the other. */
    function Of(byA: bool): Endpoint { if byA then a else b }

    twostate predicate Happened(byA: bool, act: Action)
      reads this
    {
      events == old(events) + [Event(byA, act)]
    }

    /** One side has taken a step; the history takes it, too. */
    ghost method Record(byA: bool, act: Action, s: System)
      requires Apart() && a.Valid() && b.Valid() && Run(states, events) && states[|events|] == s
      requires CanPlay(s, Event(byA, act)) && System(a.side, b.side) == Play(s, Event(byA, act))
      modifies this
      ensures Valid() && Happened(byA, act)
    {
      hide Run; hide Endpoint.Valid; hide Play; hide CanPlay;
      RunExtends(states, events, Event(byA, act));
      RunIsFull(states, events);
      states, events := states + [System(a.side, b.side)], events + [Event(byA, act)];
    }

    lemma RunIsFull(states: seq<System>, events: seq<Event>)
      requires Run(states, events)
      ensures |states| == |events| + 1
    {}

    lemma SidesAreOk()
      requires a.Valid() && b.Valid()
      ensures Ok(a.side.c) && Ok(b.side.c) && a.conn.sendq.Length == b.conn.sendq.Length == RING
    {
      hide SendRing; hide RcvRing; hide Ok;
    }

    method Send(byA: bool, data: seq<byte>, now: Millis) returns (sent: nat)
      requires Valid()
      modifies this, Of(byA), Of(byA).conn, Of(byA).conn.sendq
      ensures Valid() && Happened(byA, Write(data)) && sent <= |data|
    {
      hide Run; hide Do; hide ChaosConn.Valid;
      SidesAreOk();
      ghost var s := System(a.side, b.side);
      sent := Of(byA).Send(data, now);
      Record(byA, Write(data), s);
    }

    method Recv(byA: bool, max: nat, now: Millis) returns (buf: seq<byte>)
      requires Valid()
      modifies this, Of(byA), Of(byA).conn, Of(byA).conn.rcvq
      ensures Valid() && Happened(byA, Read(max)) && Of(byA).side.got == old(Of(byA).side.got) + buf
    {
      hide Run; hide Do; hide ChaosConn.Valid;
      SidesAreOk();
      ghost var s := System(a.side, b.side);
      buf := Of(byA).Recv(max, now);
      Record(byA, Read(max), s);
    }

    method Finish(byA: bool, now: Millis)
      requires Valid()
      modifies this, Of(byA), Of(byA).conn, Of(byA).conn.sendq
      ensures Valid() && Happened(byA, Shut)
    {
      hide Run; hide Do; hide ChaosConn.Valid;
      SidesAreOk();
      ghost var s := System(a.side, b.side);
      Of(byA).Finish(now);
      Record(byA, Shut, s);
    }

    method Release(byA: bool, text: seq<byte>)
      requires Valid()
      modifies this, Of(byA), Of(byA).conn
      ensures Valid() && Happened(byA, LetGo(text))
    {
      hide Run; hide Do; hide ChaosConn.Valid;
      SidesAreOk();
      ghost var s := System(a.side, b.side);
      Of(byA).Release(text);
      Record(byA, LetGo(text), s);
    }

    method Tick(byA: bool, now: Millis)
      requires Valid()
      modifies this, Of(byA), Of(byA).conn, Of(byA).conn.sendq
      ensures Valid() && Happened(byA, Timer(old(Of(byA).conn.ClockAt(now))))
    {
      hide Run; hide Do; hide ChaosConn.Valid;
      SidesAreOk();
      ghost var s, t := System(a.side, b.side), Of(byA).conn.ClockAt(now);
      Of(byA).Tick(now);
      Record(byA, Timer(t), s);
    }

    method PeerLearned(byA: bool, now: Millis)
      requires Valid()
      modifies this, Of(byA), Of(byA).conn, Of(byA).conn.sendq
      ensures Valid() && Happened(byA, Resend(old(Of(byA).conn.Late(now, 0))))
    {
      hide Run; hide Do; hide ChaosConn.Valid;
      SidesAreOk();
      ghost var s, late := System(a.side, b.side), Of(byA).conn.Late(now, 0);
      Of(byA).PeerLearned(now);
      Record(byA, Resend(late), s);
    }

    /** The network hands over any frame the other record has ever sent that has not come round. */
    method Carry(byA: bool, f: Frame, now: Millis, ghost m: Msg)
      requires Valid() && f == Wire(m) && m in Of(!byA).conn.said && Fresh(Of(byA).side.c, m)
      modifies this, Of(byA), Of(byA).conn, Of(byA).conn.sendq, Of(byA).conn.rcvq
      ensures Valid() && Happened(byA, Deliver(m, old(Of(byA).conn.Late(now, STS_RETRANSMIT_MS))))
    {
      hide Run; hide Do; hide ChaosConn.Valid; hide Fresh;
      SidesAreOk();
      ghost var s, late := System(a.side, b.side), Of(byA).conn.Late(now, STS_RETRANSMIT_MS);
      Of(byA).Input(f, now, m);
      Record(byA, Deliver(m, late), s);
    }

    /** At every moment what either user has read is a prefix of what the other has written, and
        a connection that closed as finished has handed over everything. */
    lemma StreamsAreWhole()
      requires Valid()
      ensures b.side.got <= a.side.wrote && a.side.got <= b.side.wrote
      ensures Graceful(a.side, b.side) && Graceful(b.side, a.side)
    {
      hide Run; hide Graceful; hide Endpoint.Valid;
      RunIsFull(states, events);
      StreamIntegrity(states, events, |events|);
      GracefulClose(states, events, |events|);
    }
  }
}
