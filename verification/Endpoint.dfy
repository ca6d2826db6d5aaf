/** The connection record as one side of the network: each of its methods is exactly one
    action of module Network, so everything proved there about runs holds of two records
    whose frames are carried by any network.
  */
module Endpoints {
  import opened PacketNumbers
  import opened Packets
  import opened Connection
  import opened Streams
  import opened Rings
  import opened ChaosConnection
  import opened Network

  /** A read of at most `max` bytes has returned the first of what was in order, as many as that or
      all there were, and left the rest. */
  ghost predicate TookPrefix(r: Rcv, r1: Rcv, max: nat, buf: seq<byte>) {
    && Readable(r) && Readable(r1) && |buf| == Min(max, |InOrder(r)|) && InOrder(r) == buf + InOrder(r1)
  }

  class Endpoint {
    const conn: ChaosConn
    ghost var side: Side

    ghost predicate Valid()
      reads this, conn, conn.sendq, conn.rcvq
    {
      conn.Valid() && side.c == conn.view && side.sent == set m | m in conn.said
    }

    constructor (conn: ChaosConn)
      requires conn.Valid()
      ensures this.conn == conn && Valid() && side == Side(conn.view, set m | m in conn.said, [], [])
    {
      this.conn := conn;
      side := Side(conn.view, set m | m in conn.said, [], []);
    }

    /** Neither the user's writes nor his reads had a part in this step. */
    twostate predicate StreamsKept()
      reads this
    {
      side.wrote == old(side.wrote) && side.got == old(side.got)
    }

    method Send(data: seq<byte>, now: Millis) returns (sent: nat)
      requires Valid()
      modifies this, conn, conn.sendq
      ensures sent <= |data| && Valid() && side == Do(old(side), Write(data))
      ensures side.wrote == old(side.wrote) + data[..sent] && side.got == old(side.got)
      ensures sent == Accepted(old(side.c), data)
      ensures side.c.phase == old(side.c.phase) && side.c.rcv == old(side.c.rcv)
    {
      ghost var x := side;
      sent := conn.Send(data, now);
      side := Do(x, Write(data));
    }

    method Recv(max: nat, now: Millis) returns (buf: seq<byte>)
      requires Valid()
      modifies this, conn, conn.rcvq
      ensures Valid() && side == Do(old(side), Read(max)) && |buf| <= max
      ensures side.got == old(side.got) + buf && side.wrote == old(side.wrote)
      ensures side.c.phase == old(side.c.phase) && side.c.snd == old(side.c.snd)
      ensures !old(side.c.phase).Free? ==> TookPrefix(old(side.c.rcv), side.c.rcv, max, buf)
    {
      ghost var x := side;
      assert Ok(x.c);
      hide InOrder; hide ChaosConn.Valid; hide Ok;
      IsReadable();
      ConsumeTakesPrefix(x.c.rcv, max);
      hide Consume;
      buf := conn.Recv(max, now);
      side := Do(x, Read(max));
    }

    method Finish(now: Millis)
      requires Valid()
      modifies this, conn, conn.sendq
      ensures Valid() && side == Do(old(side), Shut) && StreamsKept()
      ensures side.c.phase == old(side.c.phase) && side.c.rcv == old(side.c.rcv)
      ensures side.c.phase.Open? ==> side.c.snd.eofWanted
    {
      ghost var x := side;
      conn.Finish(now);
      side := Do(x, Shut);
    }

    method Release(text: seq<byte>)
      requires Valid()
      modifies this, conn
      ensures Valid() && side == Do(old(side), LetGo(text)) && StreamsKept() && side.c.rcv == old(side.c.rcv)
    {
      ghost var x := side;
      conn.Release(text);
      side := Do(x, LetGo(text));
    }

    method Tick(now: Millis)
      requires Valid()
      modifies this, conn, conn.sendq
      ensures Valid() && side == Do(old(side), Timer(old(conn.ClockAt(now)))) && StreamsKept()
    {
      hide Connection.Tick;
      ghost var x, t := side, conn.ClockAt(now);
      conn.Tick(now);
      side := Do(x, Timer(t));
    }

    method PeerLearned(now: Millis)
      requires Valid()
      modifies this, conn, conn.sendq
      ensures Valid() && side == Do(old(side), Resend(old(conn.Late(now, 0)))) && StreamsKept()
    {
      ghost var x, late := side, conn.Late(now, 0);
      conn.PeerLearned(now);
      side := Do(x, Resend(late));
    }

    /** A frame arrives that carries the message m. */
    method Input(f: Frame, now: Millis, ghost m: Msg)
      requires Valid() && f == Wire(m)
      modifies this, conn, conn.sendq, conn.rcvq
      ensures Valid() && side == Do(old(side), Deliver(m, old(conn.Late(now, STS_RETRANSMIT_MS)))) && StreamsKept()
    {
      hide Connection.Input;
      ghost var x, late := side, conn.Late(now, STS_RETRANSMIT_MS);
      conn.Input(f, now);
      side := Do(x, Deliver(m, late));
    }

    /** What the user sees of the record. */
    lemma StateIsPhase()
      requires Valid()
      ensures conn.state == side.c.phase && conn.eofReceived == side.c.rcv.eof
      ensures conn.closeKind == side.c.kind && conn.reason == side.c.reason && |conn.reason| <= MAX_DATA
    {
      hide SendRing; hide RcvRing; hide SndOk; hide RcvOk; hide WireAll; hide Wrap;
    }

    lemma IsReadable()
      requires Valid()
      ensures Readable(side.c.rcv)
    {
      hide SendRing; hide RcvRing; hide WireAll; hide Wrap;
    }

    /** Everything in order has been read. */
    ghost predicate AllRead()
      reads this
    {
      Readable(side.c.rcv) && InOrder(side.c.rcv) == []
    }

    /** Something can be read exactly when the marks differ and the EOF is not reached; if
        not, all that is in order has been read. */
    method RecvReady() returns (ready: bool)
      requires Valid()
      ensures !ready ==> AllRead()
      ensures ready <==> side.c.rcv.read < side.c.rcv.received && !side.c.rcv.eof
    {
      hide SendRing; hide RcvRing;
      WrapEqual(side.c.rcv.received, side.c.rcv.read);
      ready := conn.readNum != conn.receivedNum && !conn.eofReceived;
    }
  }
}
